/** Looking up one object of the CIB by its id and selecting it for the JSON answer (api_resources.go,
    api_constraints.go, api_nodes.go, api_common.go). */
module CibIndex {
  import opened Common
  import ApiRoutes

  datatype Item = Item(id: string, content: string)
  datatype Node = Node(id: string, uname: string, content: string)

  datatype Nodes = Nodes(node: seq<Node>, urlType: string, urlIndex: int)

  datatype Resources = Resources(
    primitive: seq<Item>, group: seq<Item>, clone: seq<Item>, master: seq<Item>, urlType: string, urlIndex: int)

  datatype Constraints = Constraints(
    rscLocation: seq<Item>, rscColocation: seq<Item>, rscOrder: seq<Item>, urlType: string, urlIndex: int)

  datatype Configuration = Configuration(
    crmConfig: string, nodes: Nodes, resources: Resources, constraints: Constraints, urlType: string)

  // ------------------------------------------------------------- JSON selection

  /** What is encoded: nothing, a whole section, one element; or the encoder indexes out of range. */
  datatype Json =
    | Null
    | AllNodes(nodes: seq<Node>)
    | OneNode(node: Node)
    | Cluster(crmConfig: string)
    | AllResources(resources: Resources)
    | AllConstraints(constraints: Constraints)
    | OneItem(item: Item)
    | OutOfRange

  function ItemAt(items: seq<Item>, index: int): Json {
    if 0 <= index < |items| then OneItem(items[index]) else OutOfRange
  }

  /** `Cib.MarshalJSON`. */
  function MarshalJSON(c: Configuration): Json {
    match c.urlType
    case "nodes" => (
      match c.nodes.urlType
      case "all" => AllNodes(c.nodes.node)
      case "node" =>
        if 0 <= c.nodes.urlIndex < |c.nodes.node| then OneNode(c.nodes.node[c.nodes.urlIndex]) else OutOfRange
      case _ => Null)
    case "cluster" => Cluster(c.crmConfig)
    case "resources" => (
      var r := c.resources;
      match r.urlType
      case "all" => AllResources(r)
      case "primitive" => ItemAt(r.primitive, r.urlIndex)
      case "group" => ItemAt(r.group, r.urlIndex)
      case "clone" => ItemAt(r.clone, r.urlIndex)
      case "master" => ItemAt(r.master, r.urlIndex)
      case _ => Null)
    case "constraints" => (
      var r := c.constraints;
      match r.urlType
      case "all" => AllConstraints(r)
      case "location" => ItemAt(r.rscLocation, r.urlIndex)
      case "colocation" => ItemAt(r.rscColocation, r.urlIndex)
      case "order" => ItemAt(r.rscOrder, r.urlIndex)
      case _ => Null)
    case _ => Null
  }

  // --------------------------------------------------------------- a plain scan

  datatype TypeIndex = TypeIndex(kind: string, index: nat)
  datatype Entry = Entry(id: string, at: TypeIndex)

  /** One list of a section, under the name of its type. */
  datatype List = List(kind: string, items: seq<Item>)

  function Entries(l: List): seq<Entry> {
    seq(|l.items|, i requires 0 <= i < |l.items| => Entry(l.items[i].id, TypeIndex(l.kind, i)))
  }

  /** All the elements of a section, in the order in which the index is built. */
  function Flat(lists: seq<List>): seq<Entry> {
    if lists == [] then [] else Flat(lists[..|lists| - 1]) + Entries(lists[|lists| - 1])
  }

  /** The last element with an id. */
  function LastMatch(es: seq<Entry>, id: string): Option<TypeIndex> {
    if es == [] then None
    else if es[|es| - 1].id == id then Some(es[|es| - 1].at)
    else LastMatch(es[..|es| - 1], id)
  }

  // ------------------------------------------------------------------ the index

  type Index = map<string, TypeIndex>

  function Lookup(m: Index, id: string): Option<TypeIndex> {
    if id in m then Some(m[id]) else None
  }

  ghost predicate Agrees(m: Index, es: seq<Entry>) {
    forall id :: Lookup(m, id) == LastMatch(es, id)
  }

  lemma AgreesStep(m: Index, es: seq<Entry>, e: Entry)
    requires Agrees(m, es)
    ensures Agrees(m[e.id := e.at], es + [e])
  {
    var m', es' := m[e.id := e.at], es + [e];
    assert es'[..|es|] == es;
    forall id ensures Lookup(m', id) == LastMatch(es', id) {
      assert Lookup(m, id) == LastMatch(es, id);
    }
  }

  /** One of the loops that fill `mapIdType`. */
  method IndexList(m0: Index, ghost es: seq<Entry>, l: List) returns (m: Index)
    requires Agrees(m0, es)
    ensures Agrees(m, es + Entries(l))
  {
    hide Agrees;
    m := m0;
    ghost var mine := Entries(l);
    assert es + mine[..0] == es;
    for i := 0 to |l.items|
      invariant Agrees(m, es + mine[..i])
    {
      AgreesStep(m, es + mine[..i], mine[i]);
      assert es + mine[..i] + [mine[i]] == es + mine[..i + 1];
      m := m[l.items[i].id := TypeIndex(l.kind, i)];
    }
    assert mine[..|l.items|] == mine;
  }

  lemma NothingAgrees()
    ensures Agrees(map[], [])
  {
  }

  // ---------------------------------------------------- what a found entry points at

  ghost predicate PointsAt(lists: seq<List>, at: TypeIndex, id: string) {
    exists n :: 0 <= n < |lists| && lists[n].kind == at.kind && at.index < |lists[n].items|
             && lists[n].items[at.index].id == id
  }

  /** A scan finds an element exactly when some list holds the id, and what it finds has that id. */
  lemma {:induction false} ScanFinds(lists: seq<List>, id: string)
    ensures match LastMatch(Flat(lists), id)
            case Some(at) => PointsAt(lists, at, id)
            case None => forall n, i :: 0 <= n < |lists| && 0 <= i < |lists[n].items| ==> lists[n].items[i].id != id
  {
    if lists != [] {
      var init, last := lists[..|lists| - 1], lists[|lists| - 1];
      assert Flat(lists) == Flat(init) + Entries(last) && lists == init + [last];
      hide LastMatch, Flat, PointsAt;
      ScanFinds(init, id);
      ScanList(Flat(init), last, |last.items|, id);
      assert Entries(last)[..|last.items|] == Entries(last);
      var found := LastMatch(Flat(init), id);
      if found.Some? {
        PointsStill(init, last, found.value, id);
      }
      PointsLast(init, last, id);
      assert lists[|init|] == last && forall n :: 0 <= n < |init| ==> lists[n] == init[n];
    }
  }

  lemma PointsStill(init: seq<List>, last: List, at: TypeIndex, id: string)
    requires PointsAt(init, at, id)
    ensures PointsAt(init + [last], at, id)
  {
    var n :| 0 <= n < |init| && init[n].kind == at.kind && at.index < |init[n].items| && init[n].items[at.index].id == id;
    assert (init + [last])[n] == init[n];
  }

  lemma PointsLast(init: seq<List>, last: List, id: string)
    ensures forall at: TypeIndex :: at.kind == last.kind && at.index < |last.items| && last.items[at.index].id == id ==>
              PointsAt(init + [last], at, id)
  {
    assert (init + [last])[|init|] == last;
  }

  lemma {:induction false} ScanList(es: seq<Entry>, l: List, n: nat, id: string)
    requires n <= |l.items|
    ensures var found := LastMatch(es + Entries(l)[..n], id);
            || (found.Some? && found.value.kind == l.kind && found.value.index < n && l.items[found.value.index].id == id)
            || (found == LastMatch(es, id) && forall i :: 0 <= i < n ==> l.items[i].id != id)
  {
    var mine := Entries(l);
    if n == 0 {
      assert es + mine[..0] == es;
    } else {
      ScanList(es, l, n - 1, id);
      var all := es + mine[..n];
      assert all[..|all| - 1] == es + mine[..n - 1];
      assert all[|all| - 1] == mine[n - 1];
    }
  }

  /** No two elements of the section have the same id. */
  ghost predicate UniqueIds(lists: seq<List>) {
    forall n, i, n', i' ::
      (&& 0 <= n < |lists| && 0 <= i < |lists[n].items| && 0 <= n' < |lists| && 0 <= i' < |lists[n'].items|
       && lists[n].items[i].id == lists[n'].items[i'].id) ==> n == n' && i == i'
  }

  ghost predicate IsElement(lists: seq<List>, at: TypeIndex, item: Item) {
    exists n :: 0 <= n < |lists| && lists[n].kind == at.kind && at.index < |lists[n].items|
             && lists[n].items[at.index] == item
  }

  /** With unique ids, the selected element is the only one with its id. */
  lemma OnlyElement(lists: seq<List>, at: TypeIndex, item: Item, n: nat, i: nat)
    requires UniqueIds(lists) && IsElement(lists, at, item)
    requires n < |lists| && i < |lists[n].items| && lists[n].items[i].id == item.id
    ensures lists[n].items[i] == item && lists[n].kind == at.kind && i == at.index
  {
    var k :| 0 <= k < |lists| && lists[k].kind == at.kind && at.index < |lists[k].items|
             && lists[k].items[at.index] == item;
    assert lists[n].items[i].id == lists[k].items[at.index].id;
  }

  // ------------------------------------------------------------------ the handlers

  /** An answer with a JSON body, the error "No route", or an index out of range in the handler itself. */
  datatype Response = Answer(json: Json) | NoRoute | Undecodable | Crash

  /** A lookup answers with the element that the last-match scan finds, or reports that there is none. */
  ghost predicate Answers(resp: Response, lists: seq<List>, id: string) {
    match LastMatch(Flat(lists), id)
    case None =>
      && resp == NoRoute
      && forall n, i :: 0 <= n < |lists| && 0 <= i < |lists[n].items| ==> lists[n].items[i].id != id
    case Some(at) =>
      && resp.Answer? && resp.json.OneItem? && resp.json.item.id == id
      && IsElement(lists, at, resp.json.item)
  }

  function ResourceLists(r: Resources): seq<List> {
    [List("primitive", r.primitive), List("group", r.group), List("clone", r.clone), List("master", r.master)]
  }

  function ConstraintLists(r: Constraints): seq<List> {
    [List("location", r.rscLocation), List("colocation", r.rscColocation), List("order", r.rscOrder)]
  }

  /** The position of the last element with an id, or -1. */
  function LastWith(items: seq<Item>, id: string): (i: int)
    ensures -1 <= i < |items|
    ensures i >= 0 ==> items[i].id == id
    ensures forall j :: i < j < |items| ==> items[j].id != id
  {
    if items == [] then -1
    else if items[|items| - 1].id == id then |items| - 1
    else LastWith(items[..|items| - 1], id)
  }

  lemma {:induction false} LastInList(es: seq<Entry>, l: List, n: nat, id: string)
    requires n <= |l.items|
    ensures var i := LastWith(l.items[..n], id);
            LastMatch(es + Entries(l)[..n], id) == if i >= 0 then Some(TypeIndex(l.kind, i)) else LastMatch(es, id)
  {
    var mine := Entries(l);
    if n == 0 {
      assert es + mine[..0] == es;
    } else {
      LastInList(es, l, n - 1, id);
      var all := es + mine[..n];
      assert all[..|all| - 1] == es + mine[..n - 1];
      assert all[|all| - 1] == mine[n - 1];
      assert l.items[..n][..n - 1] == l.items[..n - 1];
    }
  }

  /** The last list that holds the id decides. */
  lemma LastListDecides(init: seq<List>, l: List, id: string)
    ensures var i := LastWith(l.items, id);
            LastMatch(Flat(init + [l]), id) == if i >= 0 then Some(TypeIndex(l.kind, i)) else LastMatch(Flat(init), id)
  {
    assert (init + [l])[..|init|] == init;
    LastInList(Flat(init), l, |l.items|, id);
    assert Entries(l)[..|l.items|] == Entries(l) && l.items[..|l.items|] == l.items;
  }

  lemma NothingListed(id: string)
    ensures LastMatch(Flat([]), id) == None
  {
  }

  lemma LastResource(r: Resources, id: string)
    ensures var p, g, c, m := LastWith(r.primitive, id), LastWith(r.group, id), LastWith(r.clone, id), LastWith(r.master, id);
            LastMatch(Flat(ResourceLists(r)), id) ==
            if m >= 0 then Some(TypeIndex("master", m)) else if c >= 0 then Some(TypeIndex("clone", c))
            else if g >= 0 then Some(TypeIndex("group", g)) else if p >= 0 then Some(TypeIndex("primitive", p)) else None
  {
    hide Flat, LastMatch, LastWith;
    var p, g, c, m := List("primitive", r.primitive), List("group", r.group), List("clone", r.clone), List("master", r.master);
    NothingListed(id);
    LastListDecides([], p, id);
    LastListDecides([p], g, id);
    LastListDecides([p, g], c, id);
    LastListDecides([p, g, c], m, id);
    assert [] + [p] == [p] && [p] + [g] == [p, g] && [p, g] + [c] == [p, g, c] && [p, g, c] + [m] == [p, g, c, m];
  }

  lemma LastConstraint(r: Constraints, id: string)
    ensures var l, c, o := LastWith(r.rscLocation, id), LastWith(r.rscColocation, id), LastWith(r.rscOrder, id);
            LastMatch(Flat(ConstraintLists(r)), id) ==
            if o >= 0 then Some(TypeIndex("order", o)) else if c >= 0 then Some(TypeIndex("colocation", c))
            else if l >= 0 then Some(TypeIndex("location", l)) else None
  {
    hide Flat, LastMatch, LastWith;
    var l, c, o := List("location", r.rscLocation), List("colocation", r.rscColocation), List("order", r.rscOrder);
    NothingListed(id);
    LastListDecides([], l, id);
    LastListDecides([l], c, id);
    LastListDecides([l, c], o, id);
    assert [] + [l] == [l] && [l] + [c] == [l, c] && [l, c] + [o] == [l, c, o];
  }

  lemma ResourceAt(r: Resources, at: TypeIndex, item: Item)
    requires IsElement(ResourceLists(r), at, item)
    ensures at.kind == "primitive" ==> at.index < |r.primitive| && item == r.primitive[at.index]
    ensures at.kind == "group" ==> at.index < |r.group| && item == r.group[at.index]
    ensures at.kind == "clone" ==> at.index < |r.clone| && item == r.clone[at.index]
    ensures at.kind == "master" ==> at.index < |r.master| && item == r.master[at.index]
  {
  }

  lemma ConstraintAt(r: Constraints, at: TypeIndex, item: Item)
    requires IsElement(ConstraintLists(r), at, item)
    ensures at.kind == "location" ==> at.index < |r.rscLocation| && item == r.rscLocation[at.index]
    ensures at.kind == "colocation" ==> at.index < |r.rscColocation| && item == r.rscColocation[at.index]
    ensures at.kind == "order" ==> at.index < |r.rscOrder| && item == r.rscOrder[at.index]
  {
  }

  /** Which resource a lookup answers with: the last master with the id, else the last clone, else the last group, else
      the last primitive; "No route" exactly if no list has the id. */
  lemma ResourceFound(resp: Response, r: Resources, id: string)
    requires Answers(resp, ResourceLists(r), id)
    ensures var p, g, c, m := LastWith(r.primitive, id), LastWith(r.group, id), LastWith(r.clone, id), LastWith(r.master, id);
            resp == if m >= 0 then Answer(OneItem(r.master[m]))
                    else if c >= 0 then Answer(OneItem(r.clone[c]))
                    else if g >= 0 then Answer(OneItem(r.group[g]))
                    else if p >= 0 then Answer(OneItem(r.primitive[p]))
                    else NoRoute
  {
    hide Flat, LastMatch, LastWith, ResourceLists, IsElement;
    LastResource(r, id);
    var found := LastMatch(Flat(ResourceLists(r)), id);
    if found.Some? {
      ResourceAt(r, found.value, resp.json.item);
    }
  }

  /** Which constraint: the last order with the id, else the last colocation, else the last location. */
  lemma ConstraintFound(resp: Response, r: Constraints, id: string)
    requires Answers(resp, ConstraintLists(r), id)
    ensures var l, c, o := LastWith(r.rscLocation, id), LastWith(r.rscColocation, id), LastWith(r.rscOrder, id);
            resp == if o >= 0 then Answer(OneItem(r.rscOrder[o]))
                    else if c >= 0 then Answer(OneItem(r.rscColocation[c]))
                    else if l >= 0 then Answer(OneItem(r.rscLocation[l]))
                    else NoRoute
  {
    hide Flat, LastMatch, LastWith, ConstraintLists, IsElement;
    LastConstraint(r, id);
    var found := LastMatch(Flat(ConstraintLists(r)), id);
    if found.Some? {
      ConstraintAt(r, found.value, resp.json.item);
    }
  }

  /** Which node: the first whose id or name is the key, or "No route" exactly if there is none. */
  lemma NodeFound(resp: Response, ns: seq<Node>, key: string)
    requires NodeAnswers(resp, ns, key)
    ensures (forall i :: 0 <= i < |ns| ==> ns[i].id != key && ns[i].uname != key) ==> resp == NoRoute
    ensures forall i :: 0 <= i < |ns| && (ns[i].id == key || ns[i].uname == key)
                        && (forall j :: 0 <= j < i ==> ns[j].id != key && ns[j].uname != key) ==>
              resp == Answer(OneNode(ns[i]))
  {
  }

  /** The encoder finds the element that the index points at. */
  lemma SelectResource(c: Configuration, at: TypeIndex, id: string)
    requires c.urlType == "resources" && PointsAt(ResourceLists(c.resources), at, id)
    ensures var json := MarshalJSON(c.(resources := c.resources.(urlType := at.kind, urlIndex := at.index)));
            json.OneItem? && json.item.id == id && IsElement(ResourceLists(c.resources), at, json.item)
  {
    var lists := ResourceLists(c.resources);
    var n :| 0 <= n < |lists| && lists[n].kind == at.kind && at.index < |lists[n].items|
             && lists[n].items[at.index].id == id;
  }

  lemma SelectConstraint(c: Configuration, at: TypeIndex, id: string)
    requires c.urlType == "constraints" && PointsAt(ConstraintLists(c.constraints), at, id)
    ensures var json := MarshalJSON(c.(constraints := c.constraints.(urlType := at.kind, urlIndex := at.index)));
            json.OneItem? && json.item.id == id && IsElement(ConstraintLists(c.constraints), at, json.item)
  {
    var lists := ConstraintLists(c.constraints);
    var n :| 0 <= n < |lists| && lists[n].kind == at.kind && at.index < |lists[n].items|
             && lists[n].items[at.index].id == id;
  }

  lemma FlatFour(a: List, b: List, c: List, d: List)
    ensures Flat([a, b, c]) == Entries(a) + Entries(b) + Entries(c)
    ensures Flat([a, b, c, d]) == Entries(a) + Entries(b) + Entries(c) + Entries(d)
  {
    hide Entries;
    assert [a, b, c, d][..3] == [a, b, c] && [a, b, c][..2] == [a, b] && [a, b][..1] == [a];
    assert Flat([a]) == Entries(a) && Flat([a, b]) == Entries(a) + Entries(b);
  }

  /** `handleApiResources`, with the result of decoding the CIB. */
  method HandleApiResources(cib: Option<Configuration>, path: string) returns (resp: Response)
    ensures cib.None? ==> resp == Undecodable
    ensures cib.Some? ==>
              match ApiRoutes.SelectionOf(ApiRoutes.UrlList(path))
              case Whole => resp == Answer(AllResources(cib.value.resources.(urlType := "all")))
              case Key(key) => Answers(resp, ResourceLists(cib.value.resources), key)
              case OutOfRange => resp == Crash
  {
    hide ApiRoutes.UrlList;
    if cib.None? {
      return Undecodable;
    }
    var c := cib.value.(urlType := "resources");
    var urllist := ApiRoutes.UrlList(path);
    if |urllist| == 3 {
      c := c.(resources := c.resources.(urlType := "all"));
    } else if |urllist| < 3 {
      return Crash;
    } else {
      hide Flat, Entries, MarshalJSON, IsElement, Agrees, PointsAt;
      var resId, r := urllist[3], c.resources;
      var p, g, l, m := List("primitive", r.primitive), List("group", r.group), List("clone", r.clone), List("master", r.master);
      NothingAgrees();
      var mapIdType := IndexList(map[], [], p);
      mapIdType := IndexList(mapIdType, [] + Entries(p), g);
      mapIdType := IndexList(mapIdType, [] + Entries(p) + Entries(g), l);
      mapIdType := IndexList(mapIdType, [] + Entries(p) + Entries(g) + Entries(l), m);
      FlatFour(p, g, l, m);
      assert [] + Entries(p) == Entries(p);
      LookupIsScan(mapIdType, ResourceLists(r), resId);
      if resId !in mapIdType {
        return NoRoute;
      }
      SelectResource(c, mapIdType[resId], resId);
      c := c.(resources := r.(urlType := mapIdType[resId].kind, urlIndex := mapIdType[resId].index));
    }
    resp := Answer(MarshalJSON(c));
  }

  lemma LookupIsScan(m: Index, lists: seq<List>, id: string)
    requires Agrees(m, Flat(lists))
    ensures Lookup(m, id) == LastMatch(Flat(lists), id)
    ensures match LastMatch(Flat(lists), id)
            case Some(at) => PointsAt(lists, at, id)
            case None => forall n, i :: 0 <= n < |lists| && 0 <= i < |lists[n].items| ==> lists[n].items[i].id != id
  {
    ScanFinds(lists, id);
  }

  /** `handleApiConstraints`, with the result of decoding the CIB. */
  method HandleApiConstraints(cib: Option<Configuration>, path: string) returns (resp: Response)
    ensures cib.None? ==> resp == Undecodable
    ensures cib.Some? ==>
              match ApiRoutes.SelectionOf(ApiRoutes.UrlList(path))
              case Whole => resp == Answer(AllConstraints(cib.value.constraints.(urlType := "all")))
              case Key(key) => Answers(resp, ConstraintLists(cib.value.constraints), key)
              case OutOfRange => resp == Crash
  {
    hide ApiRoutes.UrlList;
    if cib.None? {
      return Undecodable;
    }
    var c := cib.value.(urlType := "constraints");
    var urllist := ApiRoutes.UrlList(path);
    if |urllist| == 3 {
      c := c.(constraints := c.constraints.(urlType := "all"));
    } else if |urllist| < 3 {
      return Crash;
    } else {
      hide Flat, Entries, MarshalJSON, IsElement, Agrees, PointsAt;
      var consId, r := urllist[3], c.constraints;
      var l, o, d := List("location", r.rscLocation), List("colocation", r.rscColocation), List("order", r.rscOrder);
      NothingAgrees();
      var mapIdType := IndexList(map[], [], l);
      mapIdType := IndexList(mapIdType, [] + Entries(l), o);
      mapIdType := IndexList(mapIdType, [] + Entries(l) + Entries(o), d);
      FlatFour(l, o, d, d);
      assert [] + Entries(l) == Entries(l);
      LookupIsScan(mapIdType, ConstraintLists(r), consId);
      if consId !in mapIdType {
        return NoRoute;
      }
      SelectConstraint(c, mapIdType[consId], consId);
      c := c.(constraints := r.(urlType := mapIdType[consId].kind, urlIndex := mapIdType[consId].index));
    }
    resp := Answer(MarshalJSON(c));
  }

  /** `handleApiCluster`, with the result of decoding the CIB. */
  method HandleApiCluster(cib: Option<Configuration>, path: string) returns (resp: Response)
    ensures resp == if cib.None? then Undecodable else Answer(Cluster(cib.value.crmConfig))
  {
    if cib.None? {
      return Undecodable;
    }
    resp := Answer(MarshalJSON(cib.value.(urlType := "cluster")));
  }

  predicate NodeMatches(n: Node, key: string) {
    key == n.uname || key == n.id
  }

  /** The first node with that name or id, or the report that there is none. */
  ghost predicate NodeAnswers(resp: Response, ns: seq<Node>, key: string) {
    || (resp == NoRoute && forall i :: 0 <= i < |ns| ==> !NodeMatches(ns[i], key))
    || (exists i :: 0 <= i < |ns| && resp == Answer(OneNode(ns[i])) && NodeMatches(ns[i], key)
                 && forall j :: 0 <= j < i ==> !NodeMatches(ns[j], key))
  }

  /** `handleApiNodes`, with the result of decoding the CIB. */
  method HandleApiNodes(cib: Option<Configuration>, path: string) returns (resp: Response)
    ensures cib.None? ==> resp == Undecodable
    ensures cib.Some? ==>
              match ApiRoutes.SelectionOf(ApiRoutes.UrlList(path))
              case Whole => resp == Answer(AllNodes(cib.value.nodes.node))
              case Key(key) => NodeAnswers(resp, cib.value.nodes.node, key)
              case OutOfRange => resp == Crash
  {
    hide ApiRoutes.UrlList;
    if cib.None? {
      return Undecodable;
    }
    var c := cib.value.(urlType := "nodes");
    var urllist := ApiRoutes.UrlList(path);
    if |urllist| == 3 {
      c := c.(nodes := c.nodes.(urlType := "all"));
    } else if |urllist| < 3 {
      return Crash;
    } else {
      var nodeIndex, ns := urllist[3], c.nodes.node;
      var index := -1;
      for i := 0 to |ns|
        invariant index == -1
        invariant forall j :: 0 <= j < i ==> !NodeMatches(ns[j], nodeIndex)
      {
        if nodeIndex == ns[i].uname || nodeIndex == ns[i].id {
          index := i;
          break;
        }
      }
      if index == -1 {
        return NoRoute;
      }
      c := c.(nodes := c.nodes.(urlType := "node", urlIndex := index));
    }
    resp := Answer(MarshalJSON(c));
  }
}
