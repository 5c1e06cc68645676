/** server.go: the two route handlers. `/add` validates, wraps and commits
    an attraction; `/check` returns the display names of the cached titles
    whose ids are similar enough to the id of the queried name. Headers,
    routing and JSON encoding of the body are not modelled: a response is
    its status code and the value that would be marshalled. */
module Server {
  import opened GoLib
  import opened Utils
  import opened Attractions
  import opened Store

  const StatusOK: int := 200
  const StatusBadRequest: int := 400
  const StatusInternalServerError: int := 500

  /** The data respond marshals: nothing, {"error": msg}, or a list of names. */
  datatype Body = NoBody | ErrorBody(error: string) | Names(names: seq<string>)

  /** A response, or the handler's panic, after which net/http drops the
      connection without one. */
  datatype Response = Response(code: int, body: Body) | Aborted

  // ---------------------------------------------------------------------
  // /check

  /** The score of the query id against each cached id. */
  function Scores(id: string, compares: seq<string>): (ss: seq<Score>)
    ensures |ss| == |compares|
    ensures forall i :: 0 <= i < |compares| ==> ss[i] == Similarity(id, compares[i])
  {
    seq(|compares|, i requires 0 <= i < |compares| => Similarity(id, compares[i]))
  }

  /** The loop of checkAvailability over given scores: the names whose score
      reaches the threshold, in cache order; None once a score is a panic. */
  function Select(scores: seq<Score>, displays: seq<string>): (r: Option<seq<string>>)
    requires |scores| == |displays|
    ensures r.Some? ==> |r.value| <= |scores|
  {
    if |scores| == 0 then Some([])
    else
      var n := |scores| - 1;
      match Select(scores[..n], displays[..n])
      case None => None
      case Some(m) =>
        if scores[n].Panic? then None
        else if MeetsThreshold(scores[n]) then Some(m + [displays[n]])
        else Some(m)
  }

  /** The matches checkAvailability collects for `id`. */
  function Matches(id: string, compares: seq<string>, displays: seq<string>): Option<seq<string>>
    requires |compares| == |displays|
  {
    Select(Scores(id, compares), displays)
  }

  /** checkAvailability: reads the titles (500 with the error when that
      fails), then compares the query's id with every cached id in turn. */
  method CheckAvailability(cache: Cache, name: string, queryOk: bool) returns (resp: Response)
    ensures !queryOk ==> resp == Response(StatusInternalServerError, ErrorBody("Failed to read cache"))
    ensures queryOk ==>
      match Matches(ToID(name), Compares(cache.titles), Displays(cache.titles))
      case None => resp == Aborted
      case Some(m) => resp == Response(StatusOK, Names(m))
  {
    var id := ToID(name);
    var titles := cache.ReadTitles(queryOk);
    if titles.Err? {
      return Response(StatusInternalServerError, ErrorBody(titles.msg));
    }
    var compares, displays := titles.value.compares, titles.value.displays;
    assert compares == Compares(cache.titles) && displays == Displays(cache.titles);
    ghost var scores := Scores(id, compares);
    var matches: seq<string> := [];
    for ind := 0 to |compares|
      invariant Select(scores[..ind], displays[..ind]) == Some(matches)
    {
      SelectStep(scores, displays, ind, matches);
      var score := CompareID(id, compares[ind]);
      if score.Panic? {
        SelectStaysAborted(scores, displays, ind + 1);
        return Aborted;
      }
      if MeetsThreshold(score) {
        matches := matches + [displays[ind]];
      }
    }
    assert scores[..|compares|] == scores && displays[..|displays|] == displays;
    return Response(StatusOK, Names(matches));
  }

  function Compares(titles: seq<Title>): (cs: seq<string>)
    ensures |cs| == |titles|
  {
    seq(|titles|, i requires 0 <= i < |titles| => titles[i].compare)
  }

  function Displays(titles: seq<Title>): (ds: seq<string>)
    ensures |ds| == |titles|
  {
    seq(|titles|, i requires 0 <= i < |titles| => titles[i].display)
  }

  /** One more title compared. */
  lemma SelectStep(scores: seq<Score>, displays: seq<string>, k: nat, m: seq<string>)
    requires |scores| == |displays| && k < |scores|
    requires Select(scores[..k], displays[..k]) == Some(m)
    ensures scores[k].Panic? ==> Select(scores[..k + 1], displays[..k + 1]).None?
    ensures !scores[k].Panic? && MeetsThreshold(scores[k]) ==>
      Select(scores[..k + 1], displays[..k + 1]) == Some(m + [displays[k]])
    ensures !scores[k].Panic? && !MeetsThreshold(scores[k]) ==>
      Select(scores[..k + 1], displays[..k + 1]) == Some(m)
  {
    assert scores[..k + 1][..k] == scores[..k] && displays[..k + 1][..k] == displays[..k];
  }

  /** Once compareID has panicked, so has the handler. */
  lemma {:induction false} SelectStaysAborted(scores: seq<Score>, displays: seq<string>, k: nat)
    requires |scores| == |displays| && k <= |scores|
    requires Select(scores[..k], displays[..k]).None?
    ensures Select(scores, displays).None?
  {
    if k < |scores| {
      var n := |scores| - 1;
      assert scores[..n][..k] == scores[..k] && displays[..n][..k] == displays[..k];
      SelectStaysAborted(scores[..n], displays[..n], k);
    } else {
      assert scores[..k] == scores && displays[..k] == displays;
    }
  }

  /** The loop panics exactly when one of the scores is a panic. */
  lemma {:induction false} SelectAbortedIffPanic(scores: seq<Score>, displays: seq<string>)
    requires |scores| == |displays|
    ensures Select(scores, displays).None? <==> exists i :: 0 <= i < |scores| && scores[i].Panic?
  {
    if |scores| > 0 {
      var n := |scores| - 1;
      SelectAbortedIffPanic(scores[..n], displays[..n]);
      if Select(scores[..n], displays[..n]).None? {
        var i :| 0 <= i < n && scores[..n][i].Panic?;
        assert scores[i] == scores[..n][i];
      } else if !scores[n].Panic? {
        forall i | 0 <= i < |scores|
          ensures !scores[i].Panic?
        {
          if i < n {
            assert scores[i] == scores[..n][i];
          }
        }
      }
    }
  }

  /** A name is returned exactly when its score reaches the threshold. */
  lemma {:induction false} SelectByThreshold(scores: seq<Score>, displays: seq<string>)
    requires |scores| == |displays|
    requires Select(scores, displays).Some?
    ensures forall x :: x in Select(scores, displays).value <==>
      exists i :: 0 <= i < |scores| && displays[i] == x && MeetsThreshold(scores[i])
  {
    if |scores| > 0 {
      var n := |scores| - 1;
      var m := Select(scores[..n], displays[..n]).value;
      SelectByThreshold(scores[..n], displays[..n]);
      forall x | x in Select(scores, displays).value
        ensures exists i :: 0 <= i < |scores| && displays[i] == x && MeetsThreshold(scores[i])
      {
        if x in m {
          var i :| 0 <= i < n && displays[..n][i] == x && MeetsThreshold(scores[..n][i]);
          assert displays[i] == x && scores[i] == scores[..n][i];
        } else {
          assert displays[n] == x && MeetsThreshold(scores[n]);
        }
      }
      forall x | exists i :: 0 <= i < |scores| && displays[i] == x && MeetsThreshold(scores[i])
        ensures x in Select(scores, displays).value
      {
        var i :| 0 <= i < |scores| && displays[i] == x && MeetsThreshold(scores[i]);
        if i < n {
          assert displays[..n][i] == x && scores[..n][i] == scores[i];
        }
      }
    }
  }

  /** compareID panics exactly when one side is empty. */
  lemma PanicIffOneSideEmpty(a: string, b: string)
    ensures Similarity(a, b).Panic? <==> (a == "") != (b == "")
  {
  }

  /** checkAvailability panics exactly when the query id is empty and some
      cached id is not, or the other way round. */
  lemma AbortedIffOneSideEmpty(id: string, compares: seq<string>, displays: seq<string>)
    requires |compares| == |displays|
    ensures Matches(id, compares, displays).None? <==>
      exists i :: 0 <= i < |compares| && (id == "") != (compares[i] == "")
  {
    var scores := Scores(id, compares);
    SelectAbortedIffPanic(scores, displays);
    forall i | 0 <= i < |compares|
      ensures scores[i].Panic? <==> (id == "") != (compares[i] == "")
    {
      PanicIffOneSideEmpty(id, compares[i]);
    }
  }

  /** A name is returned exactly when its cached id scores at least the
      threshold against the query id. */
  lemma MatchesSelectsByThreshold(id: string, compares: seq<string>, displays: seq<string>)
    requires |compares| == |displays|
    requires Matches(id, compares, displays).Some?
    ensures forall x :: x in Matches(id, compares, displays).value <==>
      exists i :: 0 <= i < |compares| && displays[i] == x && MeetsThreshold(Similarity(id, compares[i]))
  {
    SelectByThreshold(Scores(id, compares), displays);
  }

  /** A title whose id equals the query's id is always among the matches. */
  lemma ExactTitleIsReturned(id: string, compares: seq<string>, displays: seq<string>, i: nat)
    requires |compares| == |displays| && i < |compares| && compares[i] == id
    requires Matches(id, compares, displays).Some?
    ensures displays[i] in Matches(id, compares, displays).value
  {
    EqualIdsMatch(id);
    MatchesSelectsByThreshold(id, compares, displays);
  }

  /** A name that passes validation can still have an empty id; querying it
      against a cache that holds any non-empty id makes the handler panic. */
  lemma EmptyIdAborts(name: string, compares: seq<string>, displays: seq<string>, i: nat)
    requires |compares| == |displays| && i < |compares| && compares[i] != ""
    requires ToID(name) == ""
    ensures Matches(ToID(name), compares, displays).None?
  {
    AbortedIffOneSideEmpty(ToID(name), compares, displays);
  }

  // ---------------------------------------------------------------------
  // /add

  /** addAttraction: 400 with the validation message, 500 with the error of
      the commit, else 200 with no body. Only a committed attraction changes
      the cache. */
  method AddAttraction(cache: Cache, decoded: Result<RawAttraction>,
                       marshalDescription: Description -> string, marshalLocation: Location -> string,
                       beginErr: Option<string>, insertErr: Option<string>,
                       titlesErr: Option<string>, commitErr: Option<string>)
    returns (resp: Response)
    modifies cache
    ensures Validation(decoded).Err? ==>
      resp == Response(StatusBadRequest, ErrorBody(Validation(decoded).msg)) && unchanged(cache)
    ensures Validation(decoded).Ok? ==>
      var a := Wrap(Validation(decoded).value, marshalDescription, marshalLocation);
      var err := if beginErr.Some? then beginErr else if insertErr.Some? then insertErr
                 else if titlesErr.Some? then titlesErr else commitErr;
      match err
      case Some(e) =>
        resp == Response(StatusInternalServerError, ErrorBody(e))
        && cache.destinations == old(cache.destinations) && cache.titles == old(cache.titles)
      case None =>
        resp == Response(StatusOK, NoBody)
        && cache.destinations == old(cache.destinations) + [RowOf(a)]
        && cache.titles == old(cache.titles) + [Title(a.id, a.name)]
  {
    var rattr := ValidateAttraction(decoded);
    if rattr.Err? {
      return Response(StatusBadRequest, ErrorBody(rattr.msg));
    }
    var attraction := Wrap(rattr.value, marshalDescription, marshalLocation);
    var err := cache.CommitAttraction(attraction, beginErr, insertErr, titlesErr, commitErr);
    if err.Some? {
      return Response(StatusInternalServerError, ErrorBody(err.value));
    }
    return Response(StatusOK, NoBody);
  }
}
