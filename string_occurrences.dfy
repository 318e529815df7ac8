/** `src/string_occurrences.rs`: a weighted frequency table read from
    `entry,count` lines, and the weighted draw used by every generator that
    picks a name, rank, model, plate code or report type. */
module StringOccurrences {
  import opened Wrappers
  import opened Text

  /** One more than the largest `u32`. */
  const U32Limit: nat := 0x1_0000_0000

  datatype Entry = Entry(entry: string, occurrences: nat)

  datatype Table = Table(totalOccurrences: nat, entries: seq<Entry>) {
    /** What `from_str` guarantees of every table it builds: the total is the
        sum of the counts, and both fit in a `u32`. */
    predicate WellFormed() {
      && totalOccurrences == Sum(entries)
      && totalOccurrences < U32Limit
    }
  }

  /** Why `from_str` panics. */
  datatype ParseError =
    | NotAU32(field: string)  // the second column is not a `u32`
    | TotalOverflow           // the `u32` sum overflows (a panic in debug builds)

  /** The total of the occurrence counts. */
  function Sum(es: seq<Entry>): nat
  {
    if |es| == 0 then 0 else es[0].occurrences + Sum(es[1..])
  }

  /** No count exceeds the total, and the total is zero exactly when every
      count is. */
  lemma {:induction false} SumBounds(es: seq<Entry>)
    ensures forall k :: 0 <= k < |es| ==> es[k].occurrences <= Sum(es)
    ensures Sum(es) == 0 <==> forall k :: 0 <= k < |es| ==> es[k].occurrences == 0
  {
    if |es| > 0 {
      SumBounds(es[1..]);
      forall k | 1 <= k < |es|
        ensures es[k].occurrences <= Sum(es) && es[k] == es[1..][k - 1]
      {
        assert es[k] == es[1..][k - 1];
      }
    }
  }

  lemma {:induction false} SumAppend(es: seq<Entry>, e: Entry)
    ensures Sum(es + [e]) == Sum(es) + e.occurrences
  {
    if |es| > 0 {
      SumAppend(es[1..], e);
      assert (es + [e])[1..] == es[1..] + [e];
    }
  }

  /** Helper for `GetWeightedEntry`: the running total over the whole
      table is its sum. */
  lemma SumOfAll(es: seq<Entry>)
    ensures Sum(es[..|es|]) == Sum(es)
  {
    assert es[..|es|] == es;
  }

  /** The running total once entry `i` has been counted. */
  function Through(es: seq<Entry>, i: nat): nat
    requires i < |es|
  {
    Sum(es[..i + 1])
  }

  /** The running total through entry `i`, split at the head. */
  lemma ThroughHead(es: seq<Entry>, i: nat)
    requires i < |es|
    ensures Through(es, i) == es[0].occurrences + (if i == 0 then 0 else Through(es[1..], i - 1))
  {
    assert es[..i + 1][1..] == es[1..][..i];
    assert es[..i + 1][0] == es[0];
    if i == 0 {
      assert es[..1][1..] == [];
      assert Sum(es[..1]) == es[0].occurrences + Sum(es[..1][1..]);
    }
  }

  lemma ThroughStep(es: seq<Entry>, i: nat)
    requires i < |es|
    ensures Through(es, i) == Sum(es[..i]) + es[i].occurrences
  {
    assert es[..i + 1] == es[..i] + [es[i]];
    SumAppend(es[..i], es[i]);
  }

  predicate IsDigit(ch: char) { '0' <= ch <= '9' }

  /** The decimal value of a string of ASCII digits. */
  function DigitsValue(s: string): nat
    requires forall k :: 0 <= k < |s| ==> IsDigit(s[k])
  {
    if |s| == 0 then 0
    else DigitsValue(s[..|s| - 1]) * 10 + DigitValue(s[|s| - 1])
  }

  function DigitValue(ch: char): nat
    requires IsDigit(ch)
  {
    ch as int - '0' as int
  }

  /** `u32::from_str`: an optional `+`, then at least one ASCII digit and
      nothing else, with a value below 2^32.  A sign `-`, spaces and a
      trailing `'\r'` are all rejected. */
  function ParseU32(s: string): (r: Option<nat>)
    ensures r.Some? ==> r.value < U32Limit
    ensures r.Some? ==> |s| > 0 && (s[0] == '+' || IsDigit(s[0]))
    ensures r.Some? ==> forall k :: 1 <= k < |s| ==> IsDigit(s[k])
  {
    var digits := if |s| > 0 && s[0] == '+' then s[1..] else s;
    if |digits| == 0 || exists k :: 0 <= k < |digits| && !IsDigit(digits[k]) then None
    else if DigitsValue(digits) >= U32Limit then None
    else Some(DigitsValue(digits))
  }

  /** The canonical decimal form of `n`. */
  function Decimal(n: nat): (s: string)
    ensures |s| > 0
    ensures forall k :: 0 <= k < |s| ==> IsDigit(s[k])
  {
    if n < 10 then ['0' + n as char]
    else Decimal(n / 10) + ['0' + (n % 10) as char]
  }

  lemma {:induction false} DecimalValue(n: nat)
    ensures DigitsValue(Decimal(n)) == n
  {
    if n >= 10 {
      DecimalValue(n / 10);
      var s := Decimal(n);
      assert s[..|s| - 1] == Decimal(n / 10);
    }
  }

  /** Every `u32` written in decimal parses back to itself. */
  lemma ParseDecimal(n: nat)
    requires n < U32Limit
    ensures ParseU32(Decimal(n)) == Some(n)
  {
    DecimalValue(n);
    assert Decimal(n)[0] != '+';
  }

  /** The entries of the rows, in row order: text from the first field,
      count from the second, further fields ignored.  The first row whose
      count does not parse makes the whole read fail, naming that field. */
  function ParseRows(rows: seq<seq<string>>): (r: Result<seq<Entry>, ParseError>)
    requires forall k :: 0 <= k < |rows| ==> |rows[k]| >= 2
    ensures r.Ok? ==> |r.value| == |rows|
    ensures r.Ok? ==> forall k :: 0 <= k < |rows| ==>
      r.value[k].entry == rows[k][0] && ParseU32(rows[k][1]) == Some(r.value[k].occurrences)
    ensures r.Err? <==> exists k :: 0 <= k < |rows| && ParseU32(rows[k][1]).None?
                                 && r.error == NotAU32(rows[k][1])
                                 && forall j :: 0 <= j < k ==> ParseU32(rows[j][1]).Some?
  {
    if |rows| == 0 then Ok([])
    else match ParseU32(rows[0][1])
      case None => Err(NotAU32(rows[0][1]))
      case Some(n) =>
        match ParseRows(rows[1..])
        case Err(e) => Err(e)
        case Ok(rest) => Ok([Entry(rows[0][0], n)] + rest)
  }

  /** `StringOccurrences::from_str`: one entry per line that has a comma, in
      line order, and the sum of their counts.  It fails on the first row
      whose count is not a `u32`, and when the sum leaves `u32`. */
  function FromStr(data: string): (r: Result<Table, ParseError>)
    ensures r.Ok? ==> r.value.WellFormed()
    ensures r.Ok? <==> ParseRows(Rows(data)).Ok? && Sum(ParseRows(Rows(data)).value) < U32Limit
    ensures r.Ok? ==> r.value.entries == ParseRows(Rows(data)).value
    ensures ParseRows(Rows(data)).Err? ==> r == Err(ParseRows(Rows(data)).error)
  {
    match ParseRows(Rows(data))
    case Err(e) => Err(e)
    case Ok(es) => if Sum(es) >= U32Limit then Err(TotalOverflow) else Ok(Table(Sum(es), es))
  }

  /** The index `get_random_entry` answers for `value` (written as the
      source has it, with `value <= counter`): the first entry whose running
      total reaches `value`, or `|es|` when none does. */
  function DrawnIndex(es: seq<Entry>, value: nat): (i: nat)
    ensures i <= |es|
    ensures |es| > 0 && value == 0 ==> i == 0
  {
    if |es| == 0 then 0
    else if value <= es[0].occurrences then 0
    else 1 + DrawnIndex(es[1..], value - es[0].occurrences)
  }

  /** `DrawnIndex` is the first index whose running total is at least
      `value`; it is in range whenever `value` is below the total. */
  lemma {:induction false} DrawnIndexIsFirst(es: seq<Entry>, value: nat)
    ensures var i := DrawnIndex(es, value);
      && (i < |es| ==> value <= Through(es, i))
      && (forall j :: 0 <= j < i ==> Through(es, j) < value)
    ensures value < Sum(es) ==> DrawnIndex(es, value) < |es|
  {
    if |es| > 0 && value > es[0].occurrences {
      var v := value - es[0].occurrences;
      DrawnIndexIsFirst(es[1..], v);
      var i := DrawnIndex(es, value);
      if i < |es| { ThroughHead(es, i); }
      forall j | 0 <= j < i ensures Through(es, j) < value {
        ThroughHead(es, j);
      }
    } else if |es| > 0 {
      ThroughHead(es, 0);
    }
  }

  /** Only the first index with that property has it. */
  lemma DrawnIndexUnique(es: seq<Entry>, value: nat, i: nat)
    requires i < |es| && value <= Through(es, i)
    requires forall j :: 0 <= j < i ==> Through(es, j) < value
    ensures DrawnIndex(es, value) == i
  {
    DrawnIndexIsFirst(es, value);
  }

  /** `get_random_entry`: `value = random % total`, then a running counter
      over the entries returns the first entry with `value <= counter`.  A
      zero total is a division by zero (a panic, `None` here); otherwise the
      loop always returns, so the panic after it cannot be reached. */
  method GetRandomEntry(table: Table, random: nat) returns (res: Option<string>)
    requires table.WellFormed()
    requires random < U32Limit
    ensures res.None? <==> table.totalOccurrences == 0
    ensures res.Some? ==>
      var i := DrawnIndex(table.entries, random % table.totalOccurrences);
      i < |table.entries| && res.value == table.entries[i].entry
  {
    if table.totalOccurrences == 0 {
      return None;
    }
    var es := table.entries;
    var value := random % table.totalOccurrences;
    var counter := 0;
    var i := 0;
    while i < |es|
      invariant i <= |es|
      invariant counter == Sum(es[..i])
      invariant forall j :: 0 <= j < i ==> Through(es, j) < value
    {
      ThroughStep(es, i);
      counter := counter + es[i].occurrences;
      if value <= counter {
        DrawnIndexUnique(es, value, i);
        return Some(es[i].entry);
      }
      i := i + 1;
    }
    assert |es| > 0 && Through(es, i - 1) == Sum(es) by { assert es[..i] == es; }
    assert false;
  }

  // The draw is not proportional to the counts: with `<=` the first entry
  // answers one value more than its count and the last one value fewer.

  /** With two entries of count 1 the second is never drawn. */
  lemma UnitWeightsNeverDrawSecond(random: nat)
    ensures var es := [Entry("a", 1), Entry("b", 1)];
      Sum(es) == 2 && DrawnIndex(es, random % 2) == 0
  {
    var es := [Entry("a", 1), Entry("b", 1)];
    assert Sum(es) == 2 by { assert es[1..][1..] == []; }
  }

  /** The intended draw, `value < counter`: the first entry whose running
      total exceeds `value`. */
  function WeightedIndex(es: seq<Entry>, value: nat): (i: nat)
    ensures i <= |es|
  {
    if |es| == 0 then 0
    else if value < es[0].occurrences then 0
    else 1 + WeightedIndex(es[1..], value - es[0].occurrences)
  }

  /** Entry `i` is drawn for exactly the `es[i].occurrences` values in
      `[Sum(es[..i]), Sum(es[..i + 1]))`; so an entry of count zero is never
      drawn and each other entry is drawn in proportion to its count. */
  lemma {:induction false} WeightedIndexIsProportional(es: seq<Entry>, value: nat, i: nat)
    requires i < |es|
    ensures WeightedIndex(es, value) == i <==> Sum(es[..i]) <= value < Through(es, i)
  {
    ThroughHead(es, i);
    ThroughStep(es, i);
    if i > 0 {
      ThroughStep(es[1..], i - 1);
      if value >= es[0].occurrences {
        WeightedIndexIsProportional(es[1..], value - es[0].occurrences, i - 1);
      }
    }
  }

  /** `get_random_entry` with the comparison it evidently intends,
      `value < counter`: the entry answered is `WeightedIndex`, so each
      entry is drawn for exactly as many values as its count. */
  method GetWeightedEntry(table: Table, random: nat) returns (res: Option<string>)
    requires table.WellFormed()
    requires random < U32Limit
    ensures res.None? <==> table.totalOccurrences == 0
    ensures res.Some? ==>
      var i := WeightedIndex(table.entries, random % table.totalOccurrences);
      i < |table.entries| && res.value == table.entries[i].entry
  {
    if table.totalOccurrences == 0 {
      return None;
    }
    var es := table.entries;
    var value := random % table.totalOccurrences;
    var counter := 0;
    var i := 0;
    while i < |es|
      invariant i <= |es|
      invariant counter == Sum(es[..i]) && counter <= value
    {
      ThroughStep(es, i);
      counter := counter + es[i].occurrences;
      if value < counter {
        WeightedIndexIsProportional(es, value, i);
        return Some(es[i].entry);
      }
      i := i + 1;
    }
    SumOfAll(es);
    assert false;
  }
}
