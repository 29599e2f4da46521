/** Reading the text each location spans, in the order of the locations. */
module Content {
  import opened Editor

  /** `getContentFromLocations`: one string per location, the text of the
      location's range in the location's document. The reads run
      concurrently in the source and are joined in input order, so the
      result corresponds to the input position by position. */
  function GetContentFromLocations(ws: Workspace, locations: seq<Location>): (r: seq<string>)
    ensures |r| == |locations|
    ensures forall i :: 0 <= i < |locations| ==> r[i] == ws(locations[i].uri, locations[i].range)
  {
    if locations == [] then []
    else [ws(locations[0].uri, locations[0].range)] + GetContentFromLocations(ws, locations[1..])
  }

  /** Extraction distributes over concatenation: extracting two batches and
      joining the results is the same as extracting the joined batch. */
  lemma GetContentAppend(ws: Workspace, a: seq<Location>, b: seq<Location>)
    ensures GetContentFromLocations(ws, a + b) ==
      GetContentFromLocations(ws, a) + GetContentFromLocations(ws, b)
  {
  }
}
