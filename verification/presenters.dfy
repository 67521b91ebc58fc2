/**
 Resolution of the winning parameters to a source location: the presenter
 class the factory names, and on a UI presenter the signal, action or render
 method that would handle the request.
 */
module Presenters {
  import opened Values

  /** The parameter keys the panel reads. `SignalKey` and `ActionKey` are the
      values of `Presenter::SIGNAL_KEY` and `Presenter::ACTION_KEY`. */
  const PresenterKey := "presenter"
  const SignalKey := "do"
  const ActionKey := "action"

  /** A presenter class's `formatSignalMethod`, `formatActionMethod` and
      `formatRenderMethod`. */
  datatype Naming = Naming(signalMethod: string -> string, actionMethod: string -> string, renderMethod: string -> string)

  /** A presenter class: its name, whether it extends the UI `Presenter`, the
      names of its methods, and its method-name builders. */
  datatype PresenterClass = PresenterClass(name: string, isUiPresenter: bool, methods: set<string>, naming: Naming)

  /** The presenter factory: `getPresenterClass` succeeds exactly for the
      names in the map and throws `InvalidPresenterException` otherwise. */
  type Factory = map<string, PresenterClass>

  /** Where the panel points for the winning route: a method of a class, or
      the class itself. */
  datatype Source = MethodSource(className: string, handler: string) | ClassSource(className: string)

  /** The method the presenter would run, if the class is a UI presenter and
      the parameters name a signal or an action. For an action whose action
      method is missing, it is the render method of the same name. */
  function CandidateMethod(c: PresenterClass, params: Params): Option<string>
  {
    if !c.isUiPresenter then None
    else if IsSet(params, SignalKey) then Some(c.naming.signalMethod(params[SignalKey].text))
    else if IsSet(params, ActionKey) then
      var action := params[ActionKey].text;
      var handler := c.naming.actionMethod(action);
      Some(if handler in c.methods then handler else c.naming.renderMethod(action))
    else None
  }

  /** The methods the panel would point to, most preferred first. */
  function Preferences(c: PresenterClass, params: Params): seq<string>
  {
    if !c.isUiPresenter then []
    else if IsSet(params, SignalKey) then [c.naming.signalMethod(params[SignalKey].text)]
    else if IsSet(params, ActionKey) then
      [c.naming.actionMethod(params[ActionKey].text), c.naming.renderMethod(params[ActionKey].text)]
    else []
  }

  /** `findSource`: `None` when the factory cannot resolve the presenter name. */
  function FindSource(factory: Factory, params: Params): (r: Option<Source>)
    ensures r.None? <==> TextOr(params, PresenterKey) !in factory
    ensures r.Some? ==> r.value.className == factory[TextOr(params, PresenterKey)].name
    ensures r.Some? && r.value.MethodSource? ==>
              var c := factory[TextOr(params, PresenterKey)];
              c.isUiPresenter && r.value.handler in c.methods
  {
    var presenter := TextOr(params, PresenterKey);
    if presenter !in factory then None
    else
      var c := factory[presenter];
      var handler := CandidateMethod(c, params);
      Some(if handler.Some? && handler.value in c.methods then MethodSource(c.name, handler.value) else ClassSource(c.name))
  }
}
