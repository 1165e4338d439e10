/** The backend's transit endpoints: GET /stops lists a line's stops and GET /stops-between
    measures the span between two of them. Both read the line's route-sequence document
    from the transit data service; that fetch is a parameter here. */
module TflApi {
  import opened Common

  /** One entry of a `stopPoint` array. Only `id` is read; `name` rides along to the client. */
  datatype StopPoint = StopPoint(id: string, name: string)

  /** The part of a route-sequence document the endpoints read: the `stopPointSequences`
      array, each entry reduced to its `stopPoint` array. A missing key reads as an empty
      array, as `dict.get(key, [])` does. */
  datatype RouteSequence = RouteSequence(stopPointSequences: seq<seq<StopPoint>>)

  /** A raised `HTTPException(status_code, detail)`. */
  datatype HttpError = HttpError(status: int, detail: string)

  const NoSequences := HttpError(404, "No stop sequences found.")
  const StopsNotOnRoute := HttpError(400, "One or both stop IDs not found on this route.")

  /** The JSON object GET /stops returns. */
  datatype StopsListing = StopsListing(routeId: string, direction: string, stopCount: int, stops: seq<StopPoint>)

  /** The JSON object GET /stops-between returns. */
  datatype Span = Span(
    count: int,
    fromIndex: nat,
    toIndex: nat,
    stopIdsBetween: seq<string>,
    allStopIds: seq<string>)

  function Min(a: int, b: int): int { if a <= b then a else b }
  function Max(a: int, b: int): int { if a <= b then b else a }
  function Abs(a: int): int { if a < 0 then -a else a }

  /** Python's `xs[lo:hi]` for bounds inside the list: empty once `lo >= hi`. */
  function Slice<T>(xs: seq<T>, lo: nat, hi: nat): seq<T>
    requires lo <= |xs| + 1 && hi <= |xs|
  {
    if lo < hi then xs[lo..hi] else []
  }

  /** `[stop["id"] for stop in stops]` */
  function StopIds(stops: seq<StopPoint>): (ids: seq<string>)
    ensures |ids| == |stops|
    ensures forall i :: 0 <= i < |stops| ==> ids[i] == stops[i].id
  {
    seq(|stops|, i requires 0 <= i < |stops| => stops[i].id)
  }

  /** GET /stops: the stops of the first sequence, with their number. */
  function GetStops(routeId: string, direction: string, data: RouteSequence): (r: Result<StopsListing, HttpError>)
    ensures r.Err? <==> data.stopPointSequences == []
    ensures r.Err? ==> r.error == NoSequences
    ensures r.Ok? ==> r.value.stops == data.stopPointSequences[0] && r.value.stopCount == |r.value.stops|
    ensures r.Ok? ==> r.value.routeId == routeId && r.value.direction == direction
  {
    var sequences := data.stopPointSequences;
    if sequences == [] then Err(NoSequences)
    else
      var stops := sequences[0];
      Ok(StopsListing(routeId, direction, |stops|, stops))
  }

  /** What a successful GET /stops-between answer means for the line's stop ids `ids`:
      the two positions are the first occurrences of the two ids, `count` is their distance,
      and `stopIdsBetween` lists, in line order, exactly the ids strictly between them. */
  ghost predicate IsSpan(ids: seq<string>, fromStopId: string, toStopId: string, s: Span)
  {
    && s.allStopIds == ids
    && FirstAt(ids, fromStopId, s.fromIndex)
    && FirstAt(ids, toStopId, s.toIndex)
    && s.count == Abs(s.toIndex as int - s.fromIndex)
    && |s.stopIdsBetween| == Max(s.count - 1, 0)
    && forall k :: 0 <= k < |s.stopIdsBetween| ==> s.stopIdsBetween[k] == ids[Min(s.fromIndex, s.toIndex) + 1 + k]
  }

  /** GET /stops-between. */
  function StopsBetween(data: RouteSequence, fromStopId: string, toStopId: string): (r: Result<Span, HttpError>)
    ensures data.stopPointSequences == [] ==> r == Err(NoSequences)
    ensures data.stopPointSequences != [] ==>
      var ids := StopIds(data.stopPointSequences[0]);
      && (r.Ok? <==> fromStopId in ids && toStopId in ids)
      && (r.Err? ==> r.error == StopsNotOnRoute)
      && (r.Ok? ==> IsSpan(ids, fromStopId, toStopId, r.value))
    ensures r.Ok? ==> 1 <= |r.value.allStopIds| && 0 <= r.value.count <= |r.value.allStopIds| - 1
  {
    var sequences := data.stopPointSequences;
    if sequences == [] then Err(NoSequences)
    else
      var ids := StopIds(sequences[0]);
      match (IndexOf(ids, fromStopId), IndexOf(ids, toStopId))
      case (Some(f), Some(t)) =>
        var between := Slice(ids, Min(f, t) + 1, Max(f, t));
        Ok(Span(Abs(t as int - f), f, t, between, ids))
      case _ => Err(StopsNotOnRoute)
  }

  /** Swapping the two stops swaps the reported positions and changes nothing else:
      the count and the stops in between are symmetric in the two ids. */
  lemma StopsBetweenSymmetric(data: RouteSequence, a: string, b: string)
    ensures StopsBetween(data, a, b).Ok? <==> StopsBetween(data, b, a).Ok?
    ensures StopsBetween(data, a, b).Err? ==> StopsBetween(data, a, b) == StopsBetween(data, b, a)
    ensures StopsBetween(data, a, b).Ok? ==>
      var x := StopsBetween(data, a, b).value;
      var y := StopsBetween(data, b, a).value;
      && x.count == y.count
      && x.stopIdsBetween == y.stopIdsBetween
      && x.allStopIds == y.allStopIds
      && x.fromIndex == y.toIndex && x.toIndex == y.fromIndex
  {
    if StopsBetween(data, a, b).Ok? {
      var x := StopsBetween(data, a, b).value;
      var y := StopsBetween(data, b, a).value;
      var ids := StopIds(data.stopPointSequences[0]);
      FirstAtUnique(ids, a, x.fromIndex, y.toIndex);
      FirstAtUnique(ids, b, x.toIndex, y.fromIndex);
      assert x.count == y.count;
      assert |x.stopIdsBetween| == |y.stopIdsBetween|;
      assert forall k :: 0 <= k < |x.stopIdsBetween| ==> x.stopIdsBetween[k] == y.stopIdsBetween[k];
    } else if data.stopPointSequences != [] {
      assert StopsBetween(data, a, b).error == StopsNotOnRoute;
    }
  }

  /** From a stop to itself: nothing travelled, nothing in between. */
  lemma SameStopIsEmptySpan(data: RouteSequence, a: string)
    ensures StopsBetween(data, a, a).Ok? ==>
      StopsBetween(data, a, a).value.count == 0 && StopsBetween(data, a, a).value.stopIdsBetween == []
  {
    if StopsBetween(data, a, a).Ok? {
      var s := StopsBetween(data, a, a).value;
      FirstAtUnique(s.allStopIds, a, s.fromIndex, s.toIndex);
    }
  }

  /** The two endpoints read the same document the same way: stops-between succeeds only
      where GET /stops does, its `all_stop_ids` are the ids of the listed stops, and the
      count stays below the listed `stop_count`. */
  lemma SpanWithinListing(routeId: string, direction: string, data: RouteSequence, a: string, b: string)
    ensures StopsBetween(data, a, b) == Err(NoSequences) <==> GetStops(routeId, direction, data).Err?
    ensures StopsBetween(data, a, b).Ok? ==>
      var listing := GetStops(routeId, direction, data).value;
      var span := StopsBetween(data, a, b).value;
      span.allStopIds == StopIds(listing.stops) && span.count < listing.stopCount
  {
  }

  /** The line a, b, c, d from a to d: three stops travelled, b and c in between. */
  lemma FourStopExample()
    ensures
      var stops := [StopPoint("a", ""), StopPoint("b", ""), StopPoint("c", ""), StopPoint("d", "")];
      var r := StopsBetween(RouteSequence([stops]), "a", "d");
      r.Ok? && r.value.count == 3 && r.value.stopIdsBetween == ["b", "c"]
  {
    var stops := [StopPoint("a", ""), StopPoint("b", ""), StopPoint("c", ""), StopPoint("d", "")];
    var ids := StopIds(stops);
    assert ids == ["a", "b", "c", "d"];
    IndexOfFinds(ids, "a", 0);
    IndexOfFinds(ids, "d", 3);
  }

  /** Ids that are not on the line x, y give the 400 error and no span. */
  lemma UnknownStopExample()
    ensures
      var stops := [StopPoint("x", ""), StopPoint("y", "")];
      StopsBetween(RouteSequence([stops]), "a", "z") == Err(StopsNotOnRoute)
  {
    var ids := StopIds([StopPoint("x", ""), StopPoint("y", "")]);
    assert ids == ["x", "y"];
  }
}
