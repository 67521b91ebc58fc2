# Routing panel analysis, modelled in Dafny

Nette's Tracy routing panel (`RoutingPanel`) shows, for one HTTP request,
how every router in the application's router tree answered it. `analyse`
walks the tree depth-first:

- a `RouteList` asks its own `match` (only while every enclosing list
  matched), passes its module name down as a prefix, visits its children one
  level deeper, and then writes `gutterTop` and `gutterBottom` numbers onto
  the first record it added and onto the last record of the panel;
- a leaf router is asked to match (only under a matching parent chain), any
  `Exception` it throws is caught and kept, the presenter parameter of a
  successful match is prefixed with the module, and one record is appended
  with status `no`, `may` or `yes` — `yes` only for the first successful
  leaf, whose parameters become the panel's winner;
- `findSource` resolves the winning presenter through the presenter factory
  and points to the signal, action or render method that would handle the
  request, or to the presenter class.

The model is functional. Each router's answer to the request is fixed in
advance in the tree (`Routers.LeafOutcome`, `Routers.ListOutcome`), the
factory is a map from presenter names to classes, and the walk
(`RoutingPanel.Visit` / `RoutingPanel.VisitAll`) threads a state of records,
winner and escaped exception. The proofs relate that recursive walk to an
independent reference: the flat left-to-right run (`PanelProofs.Scan`) over
the depth-first list of leaves (`Routers.Flatten`). They then characterise
that run leaf by leaf.

Two PHP idioms are plain definitions in `values.dfy` and `routers.dfy`,
and lemmas carry their meaning:

- `?? ''` on the presenter parameter (`Values.TextOr`) is stated through
  `RoutingPanel.WithModule`, `RoutingPanel.Try` and `Presenters.FindSource`.
- The short-circuit `&&` at line 102 (`Routers.ChildMatches`) is stated
  through `PanelProofs.FlattenContext`, `PanelProofs.NoEscapeBelowFailure`
  and `PanelProofs.ParentFailure`.

Files:

- `values.dfy`: PHP values: options, parameters, truthiness, `isset`,
  `?? ''` and `rtrim(…, ':')`.
- `routers.dfy`: the router tree, and its flattening into leaf slots. A slot
  is a leaf together with its module prefix, parent flag and level.
- `presenters.dfy`: presenter classes, the factory and `findSource`.
- `routing_panel.dfy`: records, the walk, gutters and the panel.
- `panel_proofs.dfy`: the general properties.
- `panel_examples.dfy`: concrete trees and what the panel shows for them.

## Model

| member | source | states |
|---|---|---|
| `Values.RTrimColons` | Sportissimo/vendor/nette/application/src/Bridges/ApplicationTracy/RoutingPanel.php:142 | The shown module is a prefix of the accumulated module. It does not end in ':'. Everything cut off was ':'. |
| `RoutingPanel.Shown` | Sportissimo/vendor/nette/application/src/Bridges/ApplicationTracy/RoutingPanel.php:136 | The shown level is `max(0, level)`: the level itself when it is non-negative, 0 otherwise. |
| `RoutingPanel.Gutter` | Sportissimo/vendor/nette/application/src/Bridges/ApplicationTracy/RoutingPanel.php:109 | A gutter is the absolute distance between the list's shown level and the record's level. |
| `RoutingPanel.WithModule` | Sportissimo/vendor/nette/application/src/Bridges/ApplicationTracy/RoutingPanel.php:124-126 | Prefixing keeps every other parameter and adds the `presenter` key if it was missing. The new presenter starts with the module, followed by the old presenter or ''. |
| `RoutingPanel.Try` | Sportissimo/vendor/nette/application/src/Bridges/ApplicationTracy/RoutingPanel.php:117-126 | A leaf under a failed parent is not asked: no params and no error. Otherwise there are params exactly when the match succeeds, and an error exactly when it throws, which is the thrown exception. With a falsy module (`''` or `'0'`) the params are returned unchanged. With a truthy module the result has the match's keys plus `presenter`, whose value is the module followed by the match's presenter (or `''` when it is unset or null), and every other key keeps its value. |
| `RoutingPanel.Step` | Sportissimo/vendor/nette/application/src/Bridges/ApplicationTracy/RoutingPanel.php:117-144 | One record is appended and earlier records are unchanged. The status is `no` iff the leaf gave no params, and `yes` iff there was no winner yet and the leaf succeeded. The winner, once set, never changes. |
| `RoutingPanel.SetGutters` | Sportissimo/vendor/nette/application/src/Bridges/ApplicationTracy/RoutingPanel.php:108-113 | If the list added records, its first one gets `gutterTop`. The last record of all gets `gutterBottom`. No other field or record changes. |
| `RoutingPanel.Visit` | Sportissimo/vendor/nette/application/src/Bridges/ApplicationTracy/RoutingPanel.php:99-115 | The walk never removes records and never changes a winner already set. |
| `RoutingPanel.VisitAll` | Sportissimo/vendor/nette/application/src/Bridges/ApplicationTracy/RoutingPanel.php:104-106 | The children loop never removes records and never changes a winner already set. |
| `RoutingPanel.Analyse` | Sportissimo/vendor/nette/application/src/Bridges/ApplicationTracy/RoutingPanel.php:128-131 | A source is resolved only once there are winning parameters. There is no source exactly when there is no winner or the factory cannot resolve the winner's presenter (taken as `''` when unset or null). |
| `Presenters.FindSource` | Sportissimo/vendor/nette/application/src/Bridges/ApplicationTracy/RoutingPanel.php:148-173 | There is no source iff the factory cannot resolve the presenter name. Otherwise the source is that class. A method source occurs only on a UI presenter, and only for a method the class has. |
| `PanelProofs.FirstIndexIsFirst` | Sportissimo/vendor/nette/application/src/Bridges/ApplicationTracy/RoutingPanel.php:127-132 | The reference winner index names a successful leaf with no successful leaf before it. It is absent iff no leaf succeeds. |
| `PanelProofs.SecondTab` | Sportissimo/vendor/nette/application/src/Bridges/ApplicationTracy/RoutingPanel.php:69-76 | A second `getTab` on the same panel walks the tree again from the kept records and winner, with no exception in flight even if the first walk's escaped: the winner stays the first call's, and none of the added records is `yes`. |
| `PanelProofs.ScanMatched` | Sportissimo/vendor/nette/application/src/Bridges/ApplicationTracy/RoutingPanel.php:127-132 | The flat run keeps a winner set earlier. Otherwise it ends with the parameters of the first successful leaf. |
| `PanelProofs.ScanRecordAt` | Sportissimo/vendor/nette/application/src/Bridges/ApplicationTracy/RoutingPanel.php:117-144 | The flat run's record for leaf `i` is that leaf's record, with the status its position relative to the first success dictates. |
| `PanelProofs.VisitIsScan` | Sportissimo/vendor/nette/application/src/Bridges/ApplicationTracy/RoutingPanel.php:99-145 | When no consulted route list throws, the recursive walk (gutters aside) equals the flat run over the depth-first leaves, and nothing escapes. |
| `PanelProofs.EscapeIff` | Sportissimo/vendor/nette/application/src/Bridges/ApplicationTracy/RoutingPanel.php:101-106 | An exception escapes the walk iff some route list whose match is consulted throws. Leaf exceptions never escape. |
| `PanelProofs.FlattenCount` | Sportissimo/vendor/nette/application/src/Bridges/ApplicationTracy/RoutingPanel.php:104-106 | The walk reaches exactly one slot per leaf of the tree. |
| `PanelProofs.FlattenContext` | Sportissimo/vendor/nette/application/src/Bridges/ApplicationTracy/RoutingPanel.php:102-105 | Every leaf below a list has the list's accumulated module as a prefix and a strictly greater level. It is asked only if the list matched under a matching chain. |
| `PanelProofs.NoEscapeBelowFailure` | Sportissimo/vendor/nette/application/src/Bridges/ApplicationTracy/RoutingPanel.php:102 | Under a failed parent no list's match is consulted, because `&&` short-circuits. |
| `PanelProofs.ParentFailure` | Sportissimo/vendor/nette/application/src/Bridges/ApplicationTracy/RoutingPanel.php:102-120 | Under a failed parent, every leaf of the subtree gives one `no` record with no params and no error, the winner is unchanged, and nothing escapes. |
| `PanelProofs.EarlierRecordsKept` | Sportissimo/vendor/nette/application/src/Bridges/ApplicationTracy/RoutingPanel.php:108-113 | A subtree's walk leaves all earlier records untouched, except the `gutterBottom` of the last earlier record. |
| `PanelProofs.ListGutters` | Sportissimo/vendor/nette/application/src/Bridges/ApplicationTracy/RoutingPanel.php:108-113 | After a list's walk, the first record it added has `gutterTop` = distance(max(0, level), its level), and the last record of the panel has `gutterBottom` the same way. |
| `PanelProofs.VisitKeepsWinner` | Sportissimo/vendor/nette/application/src/Bridges/ApplicationTracy/RoutingPanel.php:127-132 | Every walk, including one cut short by an escaping exception, keeps this invariant: no `yes` before a winner is set, and exactly one `yes`, holding the winner, after. |
| `PanelProofs.AtMostOneYes` | Sportissimo/vendor/nette/application/src/Bridges/ApplicationTracy/RoutingPanel.php:127-137 | For every tree the panel shows at most one `yes`. It shows one iff there are winning parameters, and that record holds them. |
| `PanelProofs.FirstMatchWins` | Sportissimo/vendor/nette/application/src/Bridges/ApplicationTracy/RoutingPanel.php:99-145 | With no consulted list throwing, the panel has one record per leaf in depth-first order. Each record shows its leaf's shown level, class, defaults, mask, trimmed module, params and error. The first success is `yes`, later successes `may`, the rest `no`. The winner exists iff some leaf succeeds, and it is the first success's parameters. |
| `PanelProofs.LeafThrowContained` | Sportissimo/vendor/nette/application/src/Bridges/ApplicationTracy/RoutingPanel.php:119-122 | A throwing leaf is recorded as `no` with its exception and no params. Nothing escapes, the winner is unchanged, and the loop goes on to the next sibling. |
| `PanelProofs.SourceIsFirstPresentMethod` | Sportissimo/vendor/nette/application/src/Bridges/ApplicationTracy/RoutingPanel.php:159-172 | The source is the first preferred method the class has; if it has none, the class. The preferences are the signal method, or else the action method then the render method. |
| `PanelProofs.UnknownPresenterHasNoSource` | Sportissimo/vendor/nette/application/src/Bridges/ApplicationTracy/RoutingPanel.php:152-156 | When the factory cannot resolve the winning presenter, the panel has no source. |
| `PanelProofs.SignalBeatsAction` | Sportissimo/vendor/nette/application/src/Bridges/ApplicationTracy/RoutingPanel.php:160-161 | On a UI presenter a set signal decides the source even when an action is set too. |
| `PanelProofs.ActionFallsBackToRender` | Sportissimo/vendor/nette/application/src/Bridges/ApplicationTracy/RoutingPanel.php:163-168 | Without a signal, the source is the action method if present, else the render method if present, else the class. |
| `PanelExamples.NestedModulesConcatenate` | Sportissimo/vendor/nette/application/src/Bridges/ApplicationTracy/RoutingPanel.php:123-126 | Modules "Admin:" and "Users:" around a leaf matching "Edit" give presenter "Admin:Users:Edit", module "Admin:Users" and level 2. |
| `PanelExamples.RootListGutters` | Sportissimo/vendor/nette/application/src/Bridges/ApplicationTracy/RoutingPanel.php:108-113 | A leaf directly in the root list gets both gutters 0. |
| `PanelExamples.NestedListGutters` | Sportissimo/vendor/nette/application/src/Bridges/ApplicationTracy/RoutingPanel.php:108-113 | A list at level 0 holding one leaf gives that leaf both gutters 1. |
| `PanelExamples.EmptyListMarksPreviousRecord` | Sportissimo/vendor/nette/application/src/Bridges/ApplicationTracy/RoutingPanel.php:111-113 | An empty route list writes `gutterBottom` onto the record before it. |
| `PanelExamples.NoEmptyListNoBottomGutter` | Sportissimo/vendor/nette/application/src/Bridges/ApplicationTracy/RoutingPanel.php:111-113 | Without that empty list, the same record has no `gutterBottom`. |
| `PanelExamples.FailedParentThenFirstMatch` | Sportissimo/vendor/nette/application/src/Bridges/ApplicationTracy/RoutingPanel.php:102-132 | The records are, in order: a would-match leaf under a non-matching list is `no`, the next matching leaf is `yes`, and the one after is `may` with its own params. |
| `PanelExamples.LeafThrowIsRecorded` | Sportissimo/vendor/nette/application/src/Bridges/ApplicationTracy/RoutingPanel.php:119-122 | A throwing leaf of another router class is `no` with the exception, empty defaults and no mask, and its sibling still wins. |
| `PanelExamples.ListThrowEscapes` | Sportissimo/vendor/nette/application/src/Bridges/ApplicationTracy/RoutingPanel.php:102 | A route list whose own match throws ends the walk with the exception escaping. Later leaves are never recorded. |
| `PanelExamples.RenderFallback` | Sportissimo/vendor/nette/application/src/Bridges/ApplicationTracy/RoutingPanel.php:163-168 | Action "default" on a presenter with `renderDefault` but no `actionDefault` points to `renderDefault`. |
| `PanelExamples.SignalFirst` | Sportissimo/vendor/nette/application/src/Bridges/ApplicationTracy/RoutingPanel.php:160-161 | Signal "logout" points to `handleLogout` although an action is given. |
| `PanelExamples.UnknownPresenter` | Sportissimo/vendor/nette/application/src/Bridges/ApplicationTracy/RoutingPanel.php:152-156 | An unknown presenter name gives no source. |

Two behaviours of the code are easy to misread, and the model follows the
code:

- A leaf placed directly in the root route list gets gutters of 0, not 1.
  The root list is visited at level -1, which shows as 0, and its children
  are at level 0. Gutters of 1 need a list at level 0 holding a leaf at
  level 1.
- `gutterBottom` goes onto the last record of the whole panel (`end()`), not
  onto the last record the list added. An empty route list therefore marks
  the record before it. Nested lists that end together overwrite the same
  record's `gutterBottom`, with the outermost list writing last.

## Left out

- Rendering: the templates that `getTab` and `getPanel` fill in (including
  `getPanel`'s `hasModule` flag), and `initializePanel` with its blue-screen
  panel. They only format the analysis's result. `getTab` is also the one
  caller of `analyse`; see the next line.
- `RoutingPanel.Analyse` models one `getTab` call on a new panel: the walk
  starts from no records and no winner. The code never resets the panel's
  records or winner, so a second `getTab` appends a second set of records
  under the old winner, with no `yes` and no new `findSource`.
  `PanelProofs.SecondTab` states that second walk's winner and statuses;
  the panel's source after repeated calls is not modelled.
- Routers are oracles. Each router's `match` is fixed as an outcome in the
  tree, and the HTTP request is implicit in those outcomes. Nette's real
  routers are not part of this model, so a list's own outcome is not tied to
  its children's.
- Exceptions: a leaf's `Throws` stands for an `\Exception`, which the code
  catches. PHP `Error`s thrown by a leaf would escape like a list's exception
  and are not modelled.
- findSource exceptions: any exception from the factory other than
  `InvalidPresenterException`, and any from reflection, is not modelled. An
  unknown presenter name is the only failing lookup.
- `RoutingPanel.Analyse`: `findSource` is applied to the final winner after
  the walk. The code calls it once, at the moment the winner is first set.
  The two coincide because the winner never changes afterwards
  (`RoutingPanel.Step`) and `findSource` reads only the winner and the
  factory. If the walk escapes, the code has already resolved the source; the
  model resolves it from the same winner.
- Parameter values: they are PHP null or a scalar with its string form. Array
  values, and the `TypeError` that `strict_types` raises when a
  non-string presenter or action reaches a string-typed method, are not
  modelled.
- Method names: PHP method names are case-insensitive in `hasMethod`. The
  model compares method names exactly.
- Naming: `formatSignalMethod`, `formatActionMethod` and `formatRenderMethod`
  are parameters of the presenter class. Nette's `Presenter` is not part of
  this model. The examples use a naming of their own: `handle`, `action` or
  `render` followed by the name with its first letter in upper case.
  `Presenter::SIGNAL_KEY` and `Presenter::ACTION_KEY` are taken as "do" and
  "action".
- Escaping state: when a list's exception escapes, the model keeps the
  records, winner and source gathered so far in the result. In PHP the same
  data stays on the panel object while the exception unwinds. The escaped
  exception itself is not panel state: a later `getTab` starts without it
  (`PanelProofs.SecondTab`).
