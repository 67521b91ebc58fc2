/**
 The router tree the panel inspects, with each router's answer to the one
 request under diagnosis fixed in advance, and the depth-first flattening of
 that tree into leaf "slots" (a leaf together with the context the walk
 hands it).
 */
module Routers {
  import opened Values

  /** The concrete class of a leaf router, as far as the panel inspects it:
      a `Route` exposes defaults and a mask, a `SimpleRouter` only defaults. */
  datatype RouterKind =
    | RouteKind(className: string)
    | SimpleRouterKind(className: string)
    | OtherKind(className: string)

  /** What a leaf's `match` does for the request. */
  datatype LeafOutcome = NoMatch | Match(params: Params) | Throws(error: Failure)

  /** What a route list's own `match` does for the request. */
  datatype ListOutcome = ListNoMatch | ListMatch | ListThrows(error: Failure)

  /** A leaf router: its class, its match outcome, and what `getDefaults`
      and `getMask` would return. */
  datatype LeafRouter = LeafRouter(kind: RouterKind, outcome: LeafOutcome, defaults: Params, mask: string)

  datatype Router =
    | RouteList(moduleName: string, routers: seq<Router>, outcome: ListOutcome)
    | Leaf(leaf: LeafRouter)

  /** A leaf as the walk reaches it: the accumulated module prefix, whether
      every enclosing list matched, and the nesting level passed to it. */
  datatype Slot = Slot(leaf: LeafRouter, prefix: string, parentMatches: bool, level: int)

  /** The flag a route list passes to its children. The list's own match is
      consulted only when the parent chain matched. */
  function ChildMatches(parentMatches: bool, outcome: ListOutcome): bool
  {
    parentMatches && outcome == ListMatch
  }

  function LeafCount(r: Router): nat
    decreases r
  {
    match r
    case Leaf(_) => 1
    case RouteList(_, routers, _) => LeafCountAll(routers)
  }

  function LeafCountAll(rs: seq<Router>): nat
    decreases rs
  {
    if |rs| == 0 then 0 else LeafCount(rs[0]) + LeafCountAll(rs[1..])
  }

  /** The leaves of `r` in depth-first, left-to-right order, each with the
      module prefix, parent flag and level the walk gives it. */
  function Flatten(r: Router, prefix: string, parentMatches: bool, level: int): seq<Slot>
    decreases r
  {
    match r
    case Leaf(leaf) => [Slot(leaf, prefix, parentMatches, level)]
    case RouteList(listModule, routers, outcome) =>
      FlattenAll(routers, prefix + listModule, ChildMatches(parentMatches, outcome), level + 1)
  }

  function FlattenAll(rs: seq<Router>, prefix: string, parentMatches: bool, level: int): seq<Slot>
    decreases rs
  {
    if |rs| == 0 then []
    else Flatten(rs[0], prefix, parentMatches, level) + FlattenAll(rs[1..], prefix, parentMatches, level)
  }

  /** No route list whose own match is consulted throws: a list's match runs
      only when its parent chain matched, and a throw there is not caught. */
  predicate EscapeFree(r: Router, parentMatches: bool)
    decreases r
  {
    match r
    case Leaf(_) => true
    case RouteList(_, routers, outcome) =>
      !(parentMatches && outcome.ListThrows?)
      && EscapeFreeAll(routers, ChildMatches(parentMatches, outcome))
  }

  predicate EscapeFreeAll(rs: seq<Router>, parentMatches: bool)
    decreases rs
  {
    |rs| == 0 || (EscapeFree(rs[0], parentMatches) && EscapeFreeAll(rs[1..], parentMatches))
  }
}
