/** Rust's `str::split(char)` and the line/column reading shared by the two
    table parsers (`StringOccurrences::from_str` and
    `create_places_from_str`). */
module Text {

  /** `s.split(c)`: the pieces of `s` between occurrences of `c`.  Like the
      Rust iterator it always yields at least one piece, so the empty
      string splits into `[""]` and a trailing separator yields a final
      empty piece. */
  function Split(s: string, c: char): (r: seq<string>)
    ensures |r| >= 1
    ensures c !in s ==> r == [s]
    decreases |s|
  {
    if |s| == 0 then [[]]
    else
      var rest := Split(s[1..], c);
      assert c !in s ==> c !in s[1..] by {
        assert forall x :: x in s[1..] ==> x in s;
      }
      assert s == [s[0]] + s[1..];
      if s[0] == c then [[]] + rest
      else [[s[0]] + rest[0]] + rest[1..]
  }

  /** The inverse of `Split`: the pieces glued back with `c` between them. */
  function Join(parts: seq<string>, c: char): string
    requires |parts| >= 1
    decreases |parts|
  {
    if |parts| == 1 then parts[0] else parts[0] + [c] + Join(parts[1..], c)
  }

  /** Number of occurrences of `c` in `s`. */
  function Occurrences(s: string, c: char): nat
  {
    if |s| == 0 then 0 else (if s[0] == c then 1 else 0) + Occurrences(s[1..], c)
  }

  lemma {:induction false} OccurrencesPositive(s: string, c: char)
    ensures Occurrences(s, c) > 0 <==> c in s
  {
    if |s| > 0 {
      OccurrencesPositive(s[1..], c);
      assert c in s <==> s[0] == c || c in s[1..];
    }
  }

  /** Splitting never loses a character: joining the pieces gives `s` back. */
  lemma {:induction false} JoinSplit(s: string, c: char)
    ensures Join(Split(s, c), c) == s
    decreases |s|
  {
    if |s| > 0 {
      var rest := Split(s[1..], c);
      JoinSplit(s[1..], c);
      if s[0] == c {
        assert Split(s, c)[1..] == rest;
      } else {
        if |rest| == 1 {
          assert Split(s, c) == [[s[0]] + rest[0]];
        } else {
          assert Split(s, c)[1..] == rest[1..];
          assert Join(rest, c) == rest[0] + [c] + Join(rest[1..], c);
        }
      }
    }
  }

  /** No piece contains the separator, and there is one piece more than
      there are separators. */
  lemma {:induction false} SplitPieces(s: string, c: char)
    ensures forall k :: 0 <= k < |Split(s, c)| ==> c !in Split(s, c)[k]
    ensures |Split(s, c)| == Occurrences(s, c) + 1
    decreases |s|
  {
    if |s| > 0 {
      SplitPieces(s[1..], c);
    }
  }

  /** A line has a second field exactly when it contains the separator. */
  lemma SecondFieldExists(s: string, c: char)
    ensures |Split(s, c)| >= 2 <==> c in s
  {
    SplitPieces(s, c);
    OccurrencesPositive(s, c);
  }

  /** The converse round trip: pieces free of `c` are recovered by splitting
      their join. */
  lemma {:induction false} SplitJoin(parts: seq<string>, c: char)
    requires |parts| >= 1
    requires forall k :: 0 <= k < |parts| ==> c !in parts[k]
    ensures Split(Join(parts, c), c) == parts
    decreases |parts|, |parts[0]|
  {
    if |parts[0]| > 0 {
      var p0 := parts[0];
      var tail := [p0[1..]] + parts[1..];
      assert forall k :: 0 <= k < |tail| ==> c !in tail[k] by {
        forall k | 0 <= k < |tail| ensures c !in tail[k] {
          if k == 0 { assert forall x :: x in p0[1..] ==> x in p0; }
        }
      }
      SplitJoin(tail, c);
      if |parts| == 1 {
        assert Join(parts, c) == p0;
        assert Join(tail, c) == p0[1..];
        assert p0 == [p0[0]] + p0[1..];
      } else {
        assert Join(parts, c) == [p0[0]] + Join(tail, c) by {
          assert Join(tail, c) == p0[1..] + [c] + Join(parts[1..], c);
          assert p0 == [p0[0]] + p0[1..];
        }
        assert p0[0] != c by { assert p0[0] in p0; }
        var s := Join(parts, c);
        assert s[1..] == Join(tail, c);
        assert Split(s, c) == [[p0[0]] + tail[0]] + tail[1..];
        assert tail[1..] == parts[1..];
        assert [p0[0]] + tail[0] == p0;
      }
    } else if |parts| > 1 {
      SplitJoin(parts[1..], c);
      assert Join(parts, c) == [c] + Join(parts[1..], c);
    }
  }

  /** The rows of a table text: for every `'\n'`-separated line, in order,
      its `','`-separated fields, keeping only the lines that have at least
      two fields. */
  function Rows(data: string): (r: seq<seq<string>>)
    ensures forall k :: 0 <= k < |r| ==> |r[k]| >= 2
    ensures forall line :: line in Split(data, '\n') && ',' in line ==> Split(line, ',') in r
    ensures forall k :: 0 <= k < |r| ==> exists line :: line in Split(data, '\n') && ',' in line && r[k] == Split(line, ',')
  {
    var lines := Split(data, '\n');
    RowsOfKeeps(lines);
    RowsOfOnlyFields(lines);
    RowsOf(lines)
  }

  /** `Rows` on text already cut into lines: the rows are exactly the
      fields of the lines that contain a comma. */
  function RowsOf(lines: seq<string>): (r: seq<seq<string>>)
    ensures |r| <= |lines|
    ensures forall k :: 0 <= k < |r| ==> |r[k]| >= 2
  {
    if |lines| == 0 then []
    else
      var fields := Split(lines[0], ',');
      (if |fields| >= 2 then [fields] else []) + RowsOf(lines[1..])
  }

  /** Every line that contains a comma contributes its fields as a row. */
  lemma {:induction false} RowsOfKeeps(lines: seq<string>)
    ensures forall i :: 0 <= i < |lines| && ',' in lines[i] ==> Split(lines[i], ',') in RowsOf(lines)
    decreases |lines|
  {
    if |lines| > 0 {
      RowsOfKeeps(lines[1..]);
      SecondFieldExists(lines[0], ',');
      forall i | 0 <= i < |lines| && ',' in lines[i]
        ensures Split(lines[i], ',') in RowsOf(lines)
      {
        if i > 0 {
          assert lines[i] == lines[1..][i - 1];
        }
      }
    }
  }

  /** Every row is the field list of some line that contains a comma. */
  lemma {:induction false} RowsOfOnlyFields(lines: seq<string>)
    ensures forall k :: 0 <= k < |RowsOf(lines)| ==>
      exists i :: 0 <= i < |lines| && ',' in lines[i] && RowsOf(lines)[k] == Split(lines[i], ',')
    decreases |lines|
  {
    if |lines| > 0 {
      RowsOfOnlyFields(lines[1..]);
      SecondFieldExists(lines[0], ',');
      var rest := RowsOf(lines[1..]);
      var head := if ',' in lines[0] then [Split(lines[0], ',')] else [];
      assert RowsOf(lines) == head + rest;
      forall k | 0 <= k < |RowsOf(lines)|
        ensures exists i :: 0 <= i < |lines| && ',' in lines[i] && RowsOf(lines)[k] == Split(lines[i], ',')
      {
        if k < |head| {
          assert RowsOf(lines)[k] == Split(lines[0], ',');
        } else {
          assert RowsOf(lines)[k] == rest[k - |head|];
          var j :| 0 <= j < |lines[1..]| && ',' in lines[1..][j] && rest[k - |head|] == Split(lines[1..][j], ',');
          assert lines[j + 1] == lines[1..][j];
        }
      }
    } else {
      assert RowsOf(lines) == [];
    }
  }

  /** Reading one more line: a line without a comma adds no row, a line
      with one adds its fields at the end. */
  lemma {:induction false} RowsOfSnoc(lines: seq<string>, line: string)
    ensures ',' in line ==> RowsOf(lines + [line]) == RowsOf(lines) + [Split(line, ',')]
    ensures ',' !in line ==> RowsOf(lines + [line]) == RowsOf(lines)
    decreases |lines|
  {
    SecondFieldExists(line, ',');
    if |lines| == 0 {
      assert RowsOf([line]) == (if ',' in line then [Split(line, ',')] else []) + RowsOf([]);
    } else {
      RowsOfSnoc(lines[1..], line);
      assert (lines + [line])[1..] == lines[1..] + [line];
    }
  }
}
