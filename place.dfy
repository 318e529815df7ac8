/** `src/place.rs`: the places of the dataset, read once from a
    `city,street` table. */
module Places {
  import opened Text

  datatype Place = Place(id: nat, city: string, street: string)

  /** `create_places_from_str`: every line that has a comma becomes a place
      whose city is its first field and whose street is its second (further
      fields are ignored).  A counter captured by the filtering closure hands
      out the ids 0, 1, 2, ... to the accepted lines only, in line order. */
  method CreatePlacesFromStr(data: string) returns (places: seq<Place>)
    ensures |places| == |Rows(data)|
    ensures forall k :: 0 <= k < |places| ==>
      places[k] == Place(k, Rows(data)[k][0], Rows(data)[k][1])
  {
    var lines := Split(data, '\n');
    var counter := 0;
    places := [];
    var n := 0;
    while n < |lines|
      invariant n <= |lines|
      invariant counter == |places| == |RowsOf(lines[..n])|
      invariant forall k :: 0 <= k < |places| ==>
        places[k] == Place(k, RowsOf(lines[..n])[k][0], RowsOf(lines[..n])[k][1])
    {
      var line := lines[n];
      assert lines[..n + 1] == lines[..n] + [line];
      RowsOfSnoc(lines[..n], line);
      SecondFieldExists(line, ',');
      var fields := Split(line, ',');
      if |fields| >= 2 {
        places := places + [Place(counter, fields[0], fields[1])];
        counter := counter + 1;
      }
      n := n + 1;
    }
    assert lines[..n] == lines;
  }
}
