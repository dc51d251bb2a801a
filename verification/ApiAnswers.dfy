/** From the request path to the JSON answer: `serveAPI` (main.go) together with the handlers behind it. */
module ApiAnswers {
  import opened Common
  import opened Strings
  import opened ApiRoutes
  import CibIndex

  /** The answer that a selection of a collection calls for: all of it, or a lookup by a key. The cluster's configuration
      is one object, so no selection matters there. */
  ghost predicate AnswersSelection(resp: CibIndex.Response, cib: CibIndex.Configuration, c: Collection, sel: Selection) {
    match c
    case Cluster => resp == CibIndex.Answer(CibIndex.Cluster(cib.crmConfig))
    case Nodes => (
      match sel
      case OutOfRange => resp == CibIndex.Crash
      case Whole => resp == CibIndex.Answer(CibIndex.AllNodes(cib.nodes.node))
      case Key(key) => CibIndex.NodeAnswers(resp, cib.nodes.node, key))
    case Resources => (
      match sel
      case OutOfRange => resp == CibIndex.Crash
      case Whole => resp == CibIndex.Answer(CibIndex.AllResources(cib.resources.(urlType := "all")))
      case Key(key) => CibIndex.Answers(resp, CibIndex.ResourceLists(cib.resources), key))
    case Constraints => (
      match sel
      case OutOfRange => resp == CibIndex.Crash
      case Whole => resp == CibIndex.Answer(CibIndex.AllConstraints(cib.constraints.(urlType := "all")))
      case Key(key) => CibIndex.Answers(resp, CibIndex.ConstraintLists(cib.constraints), key))
  }

  /** A request that the router hands over and the pattern of a collection accepts, for any of its readings as
      something before the route path, the route path and a tail. Its answer is that of the selection behind
      the route; it is what the path names, if nothing with a slash precedes a route of one segment. It never crashes
      if the route path has a segment. */
  method ServeCollection(cib: Option<CibIndex.Configuration>, route: string, c: Collection, path: string)
    returns (resp: CibIndex.Response)
    requires HasPrefix(path, route) && Matches(route, c, path)
    ensures cib.None? ==> resp == CibIndex.Undecodable
    ensures HasSegment(route) ==> resp != CibIndex.Crash
    ensures forall before, t: Tail :: cib.Some? && t.Valid(c) && path == Path(before, route, c, t) ==>
              AnswersSelection(resp, cib.value, c, SelectionBehind(RouteSegments(before + route), c, t))
    ensures forall before, t: Tail :: cib.Some? && t.Valid(c) && path == Path(before, route, c, t)
                                      && |RouteSegments(route)| == 1 && HasSegment(route) && Count(before, '/') == 0 ==>
              AnswersSelection(resp, cib.value, c, Asked(t))
  {
    hide UrlList, Path, RouteSegments, HasSegment, Name, Count, HasPrefix, SelectionBehind, SelectionOf;
    hide CibIndex.Answers, CibIndex.NodeAnswers;
    match c {
      case Nodes => resp := CibIndex.HandleApiNodes(cib, path);
      case Cluster => resp := CibIndex.HandleApiCluster(cib, path);
      case Resources => resp := CibIndex.HandleApiResources(cib, path);
      case Constraints => resp := CibIndex.HandleApiConstraints(cib, path);
    }
    forall before, t: Tail | t.Valid(c) && path == Path(before, route, c, t)
      ensures SelectionOf(UrlList(path)) == SelectionBehind(RouteSegments(before + route), c, t)
      ensures |RouteSegments(route)| == 1 && HasSegment(route) && Count(before, '/') == 0 ==>
                SelectionOf(UrlList(path)) == Asked(t)
    {
      SelectionOfPath(before, route, c, t);
      if HasSegment(route) {
        GetsWhatItNamesExactly(before, route, c, t);
      }
    }
    if cib.Some? && HasSegment(route) {
      SegmentsInRangeExactly(route);
      NoCrash(resp, cib.value, c, UrlList(path));
    }
  }

  lemma NoCrash(resp: CibIndex.Response, cib: CibIndex.Configuration, c: Collection, us: seq<string>)
    requires |us| >= 3 && AnswersSelection(resp, cib, c, SelectionOf(us))
    ensures resp != CibIndex.Crash
  {
  }
}
