/**
 The actions of a rule: the registry that builds them from definitions, and the
 executor that runs them one after the other against a tag manager and a
 notification manager, each of which may be missing or may refuse.
 */
module Actions {
  import opened Symbols
  import opened Rules

  /** A value of an action definition; None stands for Python's None. */
  type Arg = Option<string>

  /** An action definition, a dictionary with a type and parameters. */
  type Definition = map<string, Arg>

  /** The result of an action, without its messages. */
  datatype ActionResult = ActionResult(success: bool, actionType: Arg)

  /** A custom class: its constructor's parameters, and what its actions do; outcome None raises. */
  datatype ActionClass =
    | PassClass | FailClass | AssignTagClass | RemoveTagClass | NotifyClass
    | CustomClass(required: set<string>, optional: set<string>, outcome: Option<ActionResult>)

  datatype Action =
    | Pass
    | Fail(message: Arg)
    | AssignTag(key: Arg, value: Arg)
    | RemoveTag(key: Arg)
    | Notify(recipients: Arg)
    | Custom(outcome: Option<ActionResult>)

  // ---------- The registry ----------

  type Classes = map<string, ActionClass>

  const DefaultClasses: Classes :=
    map["PASS" := PassClass, "FAIL" := FailClass, "ASSIGN_TAG" := AssignTagClass,
        "REMOVE_TAG" := RemoveTagClass, "NOTIFY" := NotifyClass]

  /** Calling a class with keyword arguments; unknown or missing ones raise. */
  function Construct(c: ActionClass, args: Definition): Result<Action> {
    match c
    case PassClass => if args == map[] then Ok(Pass) else Err
    case FailClass =>
      if args.Keys <= {"message"} then Ok(Fail(if "message" in args then args["message"] else None)) else Err
    case AssignTagClass => if args.Keys == {"key", "value"} then Ok(AssignTag(args["key"], args["value"])) else Err
    case RemoveTagClass => if args.Keys == {"key"} then Ok(RemoveTag(args["key"])) else Err
    case NotifyClass => if args.Keys == {"recipients"} then Ok(Notify(args["recipients"])) else Err
    case CustomClass(required, optional, outcome) =>
      if required <= args.Keys <= required + optional then Ok(Custom(outcome)) else Err
  }

  function TypeOf(def: Definition): Arg {
    if "type" in def then def["type"] else None
  }

  function Create(classes: Classes, def: Definition): Result<Action> {
    match TypeOf(def)
    case None => Err
    case Some(t) => if t == "" || t !in classes then Err else Construct(classes[t], def - {"type"})
  }

  class ActionRegistry {
    var actions: Classes

    constructor ()
      ensures actions == DefaultClasses
    {
      actions := DefaultClasses;
    }

    method Register(actionType: string, c: ActionClass)
      modifies this
      ensures actions == old(actions)[actionType := c]
    {
      actions := actions[actionType := c];
    }

    method CreateAction(def: Definition) returns (r: Result<Action>)
      ensures r == Create(actions, def)
    {
      if "type" !in def || def["type"].None? || def["type"].value == "" || def["type"].value !in actions {
        return Err;
      }
      var c := actions[def["type"].value];
      var kwargs := map k | k in def && k != "type" :: def[k];
      assert kwargs == def - {"type"};
      return Construct(c, kwargs);
    }
  }

  // ---------- The managers ----------

  datatype Entity = Entity(etype: string, id: string)

  datatype TagKey = TagKey(entity: Entity, key: Arg)

  type Tags = map<TagKey, Arg>

  /** A request to the tag manager. */
  datatype TagCall = Assign(at: TagKey, value: Arg) | Remove(at: TagKey)

  function Applied(tags: Tags, call: TagCall): Tags {
    match call case Assign(at, value) => tags[at := value] case Remove(at) => tags - {at}
  }

  /** A tag manager, which may raise on any of its calls, and then leaves what tags it likes. */
  datatype TagState =
    TagState(tags: Tags, calls: nat, refuses: (nat, TagCall) -> bool, leaves: (nat, TagCall, Tags) -> Tags)
  {
    function Called(call: TagCall): TagState {
      this.(tags := if refuses(calls, call) then leaves(calls, call, tags) else Applied(tags, call), calls := calls + 1)
    }

    /** A call that raises has changed nothing. */
    ghost predicate Atomic() {
      forall n, call, before :: leaves(n, call, before) == before
    }
  }

  /** A notification manager: the recipients notified so far. It may raise too, whomever it has notified. */
  datatype NoticeState =
    NoticeState(sent: seq<Arg>, calls: nat, refuses: (nat, Arg) -> bool, leaves: (nat, Arg, seq<Arg>) -> seq<Arg>)
  {
    function Called(recipients: Arg): NoticeState {
      this.(sent := if refuses(calls, recipients) then leaves(calls, recipients, sent) else sent + [recipients],
            calls := calls + 1)
    }

    /** A call that raises has sent nothing. */
    ghost predicate Atomic() {
      forall n, recipients, before :: leaves(n, recipients, before) == before
    }
  }

  class TagManager {
    var state: TagState

    constructor (state: TagState)
      ensures this.state == state
    {
      this.state := state;
    }

    /** Raises when it refuses. */
    method Call(call: TagCall) returns (ok: bool)
      modifies this
      ensures ok == !old(state).refuses(old(state).calls, call) && state == old(state).Called(call)
    {
      ok := !state.refuses(state.calls, call);
      state := state.Called(call);
    }
  }

  class NotificationManager {
    var state: NoticeState

    constructor (state: NoticeState)
      ensures this.state == state
    {
      this.state := state;
    }

    method Send(recipients: Arg) returns (ok: bool)
      modifies this
      ensures ok == !old(state).refuses(old(state).calls, recipients) && state == old(state).Called(recipients)
    {
      ok := !state.refuses(state.calls, recipients);
      state := state.Called(recipients);
    }
  }

  // ---------- Executing ----------

  /** The managers of a context; either may be missing. */
  datatype Managers = Managers(tagging: Option<TagState>, notifying: Option<NoticeState>)

  datatype Effect = Effect(managers: Managers, result: Option<ActionResult>)

  function Tagged(m: Managers, call: TagCall, actionType: string): Effect {
    match m.tagging
    case None => Effect(m, Some(ActionResult(false, Some(actionType))))
    case Some(state) =>
      Effect(m.(tagging := Some(state.Called(call))),
        Some(ActionResult(!state.refuses(state.calls, call), Some(actionType))))
  }

  /** One action; the result is None if it raises. */
  function Executed(m: Managers, e: Entity, a: Action): Effect {
    match a
    case Pass => Effect(m, Some(ActionResult(true, Some("PASS"))))
    case Fail(_) => Effect(m, Some(ActionResult(false, Some("FAIL"))))
    case AssignTag(key, value) => Tagged(m, Assign(TagKey(e, key), value), "ASSIGN_TAG")
    case RemoveTag(key) => Tagged(m, Remove(TagKey(e, key)), "REMOVE_TAG")
    case Notify(recipients) =>
      (match m.notifying
       case None => Effect(m, Some(ActionResult(false, Some("NOTIFY"))))
       case Some(state) =>
         Effect(m.(notifying := Some(state.Called(recipients))),
                Some(ActionResult(!state.refuses(state.calls, recipients), Some("NOTIFY")))))
    case Custom(outcome) => Effect(m, outcome)
  }

  /** action_def.get('type', 'UNKNOWN') */
  function NameOf(def: Definition): Arg {
    if "type" in def then def["type"] else Some("UNKNOWN")
  }

  datatype Step = Step(managers: Managers, result: ActionResult)

  /** One definition: what cannot be built or raises becomes a failed result. */
  function Ran(classes: Classes, m: Managers, e: Entity, def: Definition): Step {
    match Create(classes, def)
    case Err => Step(m, ActionResult(false, NameOf(def)))
    case Ok(a) =>
      var effect := Executed(m, e, a);
      Step(effect.managers, if effect.result.Some? then effect.result.value else ActionResult(false, NameOf(def)))
  }

  datatype Trace = Trace(managers: Managers, results: seq<ActionResult>)

  function RanAll(classes: Classes, m: Managers, e: Entity, defs: seq<Definition>): (t: Trace)
    ensures |t.results| == |defs|
  {
    if defs == [] then Trace(m, [])
    else
      var before := RanAll(classes, m, e, defs[..|defs| - 1]);
      var step := Ran(classes, before.managers, e, defs[|defs| - 1]);
      Trace(step.managers, before.results + [step.result])
  }

  /** The context an action runs in. */
  class Context {
    const entity: Entity
    const tagManager: TagManager?
    const notificationManager: NotificationManager?

    constructor (entity: Entity, tagManager: TagManager?, notificationManager: NotificationManager?)
      ensures this.entity == entity && this.tagManager == tagManager && this.notificationManager == notificationManager
    {
      this.entity, this.tagManager, this.notificationManager := entity, tagManager, notificationManager;
    }

    ghost function Now(): Managers
      reads tagManager, notificationManager
    {
      Managers(if tagManager == null then None else Some(tagManager.state),
               if notificationManager == null then None else Some(notificationManager.state))
    }

    method CallTagManager(call: TagCall, actionType: string) returns (r: ActionResult)
      modifies tagManager
      ensures Effect(Now(), Some(r)) == Tagged(old(Now()), call, actionType)
    {
      if tagManager == null {
        return ActionResult(false, Some(actionType));
      }
      var ok := tagManager.Call(call);
      return ActionResult(ok, Some(actionType));
    }

    /** Action.execute; None stands for a raised exception. */
    method Execute(a: Action) returns (r: Option<ActionResult>)
      modifies tagManager, notificationManager
      ensures Effect(Now(), r) == Executed(old(Now()), entity, a)
    {
      match a {
        case Pass =>
          return Some(ActionResult(true, Some("PASS")));
        case Fail(_) =>
          return Some(ActionResult(false, Some("FAIL")));
        case AssignTag(key, value) =>
          var result := CallTagManager(Assign(TagKey(entity, key), value), "ASSIGN_TAG");
          return Some(result);
        case RemoveTag(key) =>
          var result := CallTagManager(Remove(TagKey(entity, key)), "REMOVE_TAG");
          return Some(result);
        case Notify(recipients) =>
          if notificationManager == null {
            return Some(ActionResult(false, Some("NOTIFY")));
          }
          var ok := notificationManager.Send(recipients);
          return Some(ActionResult(ok, Some("NOTIFY")));
        case Custom(outcome) =>
          return outcome;
      }
    }
  }

  method ExecuteActions(
    registry: ActionRegistry, defs: seq<Definition>, context: Context) returns (results: seq<ActionResult>)
    modifies context.tagManager, context.notificationManager
    ensures Trace(context.Now(), results) == RanAll(registry.actions, old(context.Now()), context.entity, defs)
  {
    ghost var start := context.Now();
    results := [];
    for i := 0 to |defs|
      invariant Trace(context.Now(), results) == RanAll(registry.actions, start, context.entity, defs[..i])
    {
      assert defs[..i + 1][..i] == defs[..i];
      var action := registry.CreateAction(defs[i]);
      var result: Option<ActionResult> := None;
      if action.Ok? {
        result := context.Execute(action.value);
      }
      if result.Some? {
        results := results + [result.value];
      } else {
        results := results + [ActionResult(false, if "type" in defs[i] then defs[i]["type"] else Some("UNKNOWN"))];
      }
    }
    assert defs[..|defs|] == defs;
  }

  // ---------- What a parsed rule's actions do ----------

  /** The dictionary parse_actions makes of an action. */
  function AsDefinition(d: ActionDef): Definition {
    match d
    case PassDef => map["type" := Some("PASS")]
    case FailDef(message) => map["type" := Some("FAIL"), "message" := message]
    case AssignTagDef(key, value) => map["type" := Some("ASSIGN_TAG"), "key" := Some(key), "value" := Some(value)]
    case RemoveTagDef(key) => map["type" := Some("REMOVE_TAG"), "key" := Some(key)]
    case NotifyDef(recipients) => map["type" := Some("NOTIFY"), "recipients" := Some(recipients)]
  }

  function ActionOf(d: ActionDef): Action {
    match d
    case PassDef => Pass
    case FailDef(message) => Fail(message)
    case AssignTagDef(key, value) => AssignTag(Some(key), Some(value))
    case RemoveTagDef(key) => RemoveTag(Some(key))
    case NotifyDef(recipients) => Notify(Some(recipients))
  }

  function Keyword(d: ActionDef): string {
    match d
    case PassDef => "PASS" case FailDef(_) => "FAIL" case AssignTagDef(_, _) => "ASSIGN_TAG"
    case RemoveTagDef(_) => "REMOVE_TAG" case NotifyDef(_) => "NOTIFY"
  }

  function AsDefinitions(ds: seq<ActionDef>): (defs: seq<Definition>)
    ensures |defs| == |ds| && forall i :: 0 <= i < |ds| ==> defs[i] == AsDefinition(ds[i])
  {
    seq(|ds|, i requires 0 <= i < |ds| => AsDefinition(ds[i]))
  }

  /** A registry that still has the five actions of the language, whatever else was registered. */
  ghost predicate Standard(classes: Classes) {
    forall t :: t in DefaultClasses ==> t in classes && classes[t] == DefaultClasses[t]
  }

  /** Every action the parser can produce is one the registry can build. */
  lemma {:induction false} ParsedActionsConstructible(classes: Classes, d: ActionDef)
    requires Standard(classes)
    ensures Create(classes, AsDefinition(d)) == Ok(ActionOf(d))
  {
    var def, args := AsDefinition(d), AsDefinition(d) - {"type"};
    assert TypeOf(def) == Some(Keyword(d)) && Keyword(d) in DefaultClasses;
    match d
    case PassDef => assert args == map[];
    case FailDef(message) => assert args == map["message" := message];
    case AssignTagDef(key, value) => assert args == map["key" := Some(key), "value" := Some(value)];
    case RemoveTagDef(key) => assert args == map["key" := Some(key)];
    case NotifyDef(recipients) => assert args == map["recipients" := Some(recipients)];
  }

  /** What an action asks of the tag manager, if anything. */
  function CallOf(e: Entity, d: ActionDef): Option<TagCall> {
    match d
    case AssignTagDef(key, value) => Some(Assign(TagKey(e, Some(key)), Some(value)))
    case RemoveTagDef(key) => Some(Remove(TagKey(e, Some(key))))
    case PassDef => None case FailDef(_) => None case NotifyDef(_) => None
  }

  /** The left fold of the assigns and removes that succeeded. */
  function Folded(tags: Tags, e: Entity, ds: seq<ActionDef>, results: seq<ActionResult>): Tags
    requires |results| == |ds|
  {
    if ds == [] then tags
    else
      var last := |ds| - 1;
      var before := Folded(tags, e, ds[..last], results[..last]);
      if results[last].success && CallOf(e, ds[last]).Some? then Applied(before, CallOf(e, ds[last]).value) else before
  }

  /** Whom an action notifies, if anyone. */
  function NoticeOf(d: ActionDef): Option<Arg> {
    match d
    case NotifyDef(recipients) => Some(Some(recipients))
    case PassDef => None case FailDef(_) => None case AssignTagDef(_, _) => None case RemoveTagDef(_) => None
  }

  /** Those notified before, and then the recipients of the notifications that succeeded. */
  function Informed(sent: seq<Arg>, ds: seq<ActionDef>, results: seq<ActionResult>): seq<Arg>
    requires |results| == |ds|
  {
    if ds == [] then sent
    else
      var last := |ds| - 1;
      var before := Informed(sent, ds[..last], results[..last]);
      if results[last].success && NoticeOf(ds[last]).Some? then before + [NoticeOf(ds[last]).value] else before
  }

  /** What an action does to the tag manager: applies its call, unless that is refused, or leaves it alone. */
  ghost predicate Tagging(before: TagState, call: Option<TagCall>, success: bool, after: TagState) {
    && after.leaves == before.leaves && after.refuses == before.refuses
    && match call
       case None => after.tags == before.tags && after.calls == before.calls
       case Some(c) =>
         && success == !before.refuses(before.calls, c) && after.calls == before.calls + 1
         && after.tags == if success then Applied(before.tags, c) else before.leaves(before.calls, c, before.tags)
  }

  /** What an action does to the notification manager: sends, unless that is refused, or leaves it alone. */
  ghost predicate Noticing(before: NoticeState, notice: Option<Arg>, success: bool, after: NoticeState) {
    && after.leaves == before.leaves && after.refuses == before.refuses
    && match notice
       case None => after.sent == before.sent && after.calls == before.calls
       case Some(r) =>
         && success == !before.refuses(before.calls, r) && after.calls == before.calls + 1
         && after.sent == if success then before.sent + [r] else before.leaves(before.calls, r, before.sent)
  }

  /** What one action of a parsed rule does. */
  ghost predicate Expected(m: Managers, e: Entity, d: ActionDef, step: Step) {
    && step.result.actionType == Some(Keyword(d))
    && (d.PassDef? ==> step.result.success) && (d.FailDef? ==> !step.result.success)
    && step.managers.tagging.Some? == m.tagging.Some? && step.managers.notifying.Some? == m.notifying.Some?
    && (m.tagging.Some? ==> Tagging(m.tagging.value, CallOf(e, d), step.result.success, step.managers.tagging.value))
    && (m.notifying.Some? ==>
          Noticing(m.notifying.value, NoticeOf(d), step.result.success, step.managers.notifying.value))
    && (m.tagging.None? && CallOf(e, d).Some? ==> !step.result.success)
    && (m.notifying.None? && NoticeOf(d).Some? ==> !step.result.success)
  }

  lemma {:induction false} RanOne(classes: Classes, m: Managers, e: Entity, d: ActionDef)
    requires Standard(classes)
    ensures Expected(m, e, d, Ran(classes, m, e, AsDefinition(d)))
  {
    ParsedActionsConstructible(classes, d);
  }

  /** The last action runs after the others. */
  lemma {:induction false} RanLast(
    classes: Classes, m: Managers, e: Entity, ds: seq<ActionDef>) returns (before: Trace, step: Step)
    requires Standard(classes) && ds != []
    ensures before == RanAll(classes, m, e, AsDefinitions(ds[..|ds| - 1]))
    ensures Expected(before.managers, e, ds[|ds| - 1], step)
    ensures RanAll(classes, m, e, AsDefinitions(ds)) == Trace(step.managers, before.results + [step.result])
  {
    assert AsDefinitions(ds)[..|ds| - 1] == AsDefinitions(ds[..|ds| - 1]);
    before := RanAll(classes, m, e, AsDefinitions(ds[..|ds| - 1]));
    step := Ran(classes, before.managers, e, AsDefinition(ds[|ds| - 1]));
    RanOne(classes, before.managers, e, ds[|ds| - 1]);
  }

  /** The outcome of a list of parsed actions: one result each, the tags folded, and the notices sent. */
  ghost predicate Folds(m: Managers, e: Entity, ds: seq<ActionDef>, t: Trace) {
    && |t.results| == |ds|
    && (forall i :: 0 <= i < |ds| ==> t.results[i].actionType == Some(Keyword(ds[i])))
    && t.managers.tagging.Some? == m.tagging.Some? && t.managers.notifying.Some? == m.notifying.Some?
    && (m.tagging.Some? ==> TagsFolded(m.tagging.value, e, ds, t.results, t.managers.tagging.value))
    && (m.notifying.Some? ==> NoticesSent(m.notifying.value, ds, t.results, t.managers.notifying.value))
  }

  ghost predicate TagsFolded(
    before: TagState, e: Entity, ds: seq<ActionDef>, results: seq<ActionResult>, after: TagState)
    requires |results| == |ds|
  {
    && after.leaves == before.leaves && after.refuses == before.refuses
    && (before.Atomic() ==> after.tags == Folded(before.tags, e, ds, results))
  }

  ghost predicate NoticesSent(before: NoticeState, ds: seq<ActionDef>, results: seq<ActionResult>, after: NoticeState)
    requires |results| == |ds|
  {
    && after.leaves == before.leaves && after.refuses == before.refuses
    && (before.Atomic() ==> after.sent == Informed(before.sent, ds, results))
  }

  lemma {:induction false} FoldsOneMore(m: Managers, e: Entity, ds: seq<ActionDef>, before: Trace, step: Step)
    requires ds != [] && Folds(m, e, ds[..|ds| - 1], before) && Expected(before.managers, e, ds[|ds| - 1], step)
    ensures Folds(m, e, ds, Trace(step.managers, before.results + [step.result]))
  {
    assert (before.results + [step.result])[..|ds| - 1] == before.results;
  }

  /**
   Executing the actions of a parsed rule gives one result per action, of the same types in the same order,
   leaves as tags the left fold of the assigns and removes that succeeded, and has notified the recipients of
   the notifications that succeeded, whatever failed in between, if a manager that raises has changed nothing.
   */
  lemma {:induction false} ExecutionFolds(classes: Classes, m: Managers, e: Entity, ds: seq<ActionDef>)
    requires Standard(classes)
    ensures Folds(m, e, ds, RanAll(classes, m, e, AsDefinitions(ds)))
  {
    if ds != [] {
      ExecutionFolds(classes, m, e, ds[..|ds| - 1]);
      var before, step := RanLast(classes, m, e, ds);
      FoldsOneMore(m, e, ds, before, step);
    }
  }

  /** Managers that are there and refuse nothing. */
  ghost predicate Willing(m: Managers) {
    && m.tagging.Some? && (forall n, call :: !m.tagging.value.refuses(n, call))
    && m.notifying.Some? && (forall n, recipients :: !m.notifying.value.refuses(n, recipients))
  }

  /** Everything but FAIL succeeds. */
  ghost predicate AllDone(ds: seq<ActionDef>, t: Trace) {
    Willing(t.managers) && |t.results| == |ds|
    && forall i :: 0 <= i < |ds| ==> (t.results[i].success <==> !ds[i].FailDef?)
  }

  /** With managers that refuse nothing, every action does what it says: all but FAIL succeed. */
  lemma {:induction false} NothingRefused(classes: Classes, m: Managers, e: Entity, ds: seq<ActionDef>)
    requires Standard(classes) && Willing(m)
    ensures AllDone(ds, RanAll(classes, m, e, AsDefinitions(ds)))
  {
    if ds != [] {
      NothingRefused(classes, m, e, ds[..|ds| - 1]);
      var before, step := RanLast(classes, m, e, ds);
      OneMoreDone(e, ds, before, step);
    }
  }

  lemma {:induction false} OneMoreDone(e: Entity, ds: seq<ActionDef>, before: Trace, step: Step)
    requires ds != [] && AllDone(ds[..|ds| - 1], before) && Expected(before.managers, e, ds[|ds| - 1], step)
    ensures AllDone(ds, Trace(step.managers, before.results + [step.result]))
  {
    assert step.result.success <==> !ds[|ds| - 1].FailDef?;
  }

  // ---------- Reading the fold ----------

  ghost predicate Writes(e: Entity, d: ActionDef, r: ActionResult, at: TagKey) {
    r.success && CallOf(e, d).Some? && CallOf(e, d).value.at == at
  }

  /** A tag is what the last successful action on it made it, and untouched if there was none. */
  lemma {:induction false} LastWriterWins(
    tags: Tags, e: Entity, ds: seq<ActionDef>, results: seq<ActionResult>, at: TagKey, i: nat)
    requires |results| == |ds| && i <= |ds|
    requires forall j :: i <= j < |ds| ==> !Writes(e, ds[j], results[j], at)
    requires i > 0 ==> Writes(e, ds[i - 1], results[i - 1], at)
    ensures var after := Folded(tags, e, ds, results);
            if i == 0 then (at in after <==> at in tags) && (at in tags ==> after[at] == tags[at])
            else match CallOf(e, ds[i - 1]).value
                 case Assign(_, value) => at in after && after[at] == value
                 case Remove(_) => at !in after
  {
    var last := |ds| - 1;
    if i < |ds| {
      LastWriterWins(tags, e, ds[..last], results[..last], at, i);
      assert !Writes(e, ds[last], results[last], at);
    }
  }

  /** Nothing was called, and only PASS succeeded. */
  ghost predicate OnlyPasses(ds: seq<ActionDef>, t: Trace) {
    && t.managers == Managers(None, None) && |t.results| == |ds|
    && forall i :: 0 <= i < |ds| ==> (t.results[i].success <==> ds[i].PassDef?)
  }

  /** Without managers every assign, remove and notification fails. */
  lemma {:induction false} WithoutManagers(classes: Classes, e: Entity, ds: seq<ActionDef>)
    requires Standard(classes)
    ensures OnlyPasses(ds, RanAll(classes, Managers(None, None), e, AsDefinitions(ds)))
  {
    if ds != [] {
      WithoutManagers(classes, e, ds[..|ds| - 1]);
      var before, step := RanLast(classes, Managers(None, None), e, ds);
      OnlyPassesOneMore(e, ds, before, step);
    }
  }

  lemma {:induction false} OnlyPassesOneMore(e: Entity, ds: seq<ActionDef>, before: Trace, step: Step)
    requires ds != [] && OnlyPasses(ds[..|ds| - 1], before) && Expected(before.managers, e, ds[|ds| - 1], step)
    ensures OnlyPasses(ds, Trace(step.managers, before.results + [step.result]))
  {
  }

  // ---------- What can be built ----------

  /** A class takes exactly its own parameters: all it requires, and none it does not know. */
  predicate Takes(c: ActionClass, parameters: set<string>) {
    match c
    case PassClass => parameters == {}
    case FailClass => forall p :: p in parameters ==> p == "message"
    case AssignTagClass => parameters == {"key", "value"}
    case RemoveTagClass => parameters == {"key"}
    case NotifyClass => parameters == {"recipients"}
    case CustomClass(required, optional, _) =>
      (forall p :: p in required ==> p in parameters) && forall p :: p in parameters ==> p in required || p in optional
  }

  /** A definition names a registered type, and has the parameters its class takes. */
  ghost predicate Fits(classes: Classes, def: Definition, t: string) {
    "type" in def && def["type"] == Some(t) && t != "" && t in classes && Takes(classes[t], def.Keys - {"type"})
  }

  function Parameter(def: Definition, name: string): Arg {
    if name in def then def[name] else None
  }

  /** The action a class makes of a definition. */
  ghost predicate Makes(c: ActionClass, def: Definition, a: Action) {
    match c
    case PassClass => a == Pass
    case FailClass => a == Fail(Parameter(def, "message"))
    case AssignTagClass => a == AssignTag(Parameter(def, "key"), Parameter(def, "value"))
    case RemoveTagClass => a == RemoveTag(Parameter(def, "key"))
    case NotifyClass => a == Notify(Parameter(def, "recipients"))
    case CustomClass(_, _, outcome) => a == Custom(outcome)
  }

  lemma {:induction false} ConstructMeaning(c: ActionClass, def: Definition)
    ensures var args := def - {"type"};
            && (Construct(c, args).Ok? <==> Takes(c, def.Keys - {"type"}))
            && (Construct(c, args).Ok? ==> Makes(c, def, Construct(c, args).value))
  {
    var args := def - {"type"};
    assert args.Keys == def.Keys - {"type"};
    if c.FailClass? { assert "message" in args <==> "message" in def; }
    if c.PassClass? && args.Keys == {} { assert args == map[]; }
  }

  /** A definition is built exactly if its type is registered and its parameters fit, and then as its class says. */
  lemma {:induction false} BuiltExactly(classes: Classes, def: Definition)
    ensures Create(classes, def).Ok? <==> exists t :: Fits(classes, def, t)
    ensures forall t :: Fits(classes, def, t) ==>
              Create(classes, def).Ok? && Makes(classes[t], def, Create(classes, def).value)
  {
    if TypeOf(def).Some? && TypeOf(def).value in classes {
      ConstructMeaning(classes[TypeOf(def).value], def);
      if Create(classes, def).Ok? { assert Fits(classes, def, TypeOf(def).value); }
    }
  }

  /** The failure recorded for a definition, under the type it names. */
  function Failure(def: Definition): ActionResult {
    ActionResult(false, if "type" in def then def["type"] else Some("UNKNOWN"))
  }

  lemma {:induction false} RanMeaning(classes: Classes, m: Managers, e: Entity, def: Definition)
    ensures var step := Ran(classes, m, e, def);
            && ((forall t :: !Fits(classes, def, t)) ==> step == Step(m, Failure(def)))
            && (forall t :: Fits(classes, def, t) && classes[t].CustomClass? ==>
                  step == Step(m, if classes[t].outcome.Some? then classes[t].outcome.value else Failure(def)))
  {
    BuiltExactly(classes, def);
  }

  /**
   Every definition has its own result: a failure under the type it names if it cannot be built or its action
   raises, and what a registered custom action reports otherwise.
   */
  lemma {:induction false} ResultsReported(classes: Classes, m: Managers, e: Entity, defs: seq<Definition>, i: nat)
    requires i < |defs|
    ensures var (def, result) := (defs[i], RanAll(classes, m, e, defs).results[i]);
            && ((forall t :: !Fits(classes, def, t)) ==> result == Failure(def))
            && (forall t :: Fits(classes, def, t) && classes[t].CustomClass? ==>
                  result == if classes[t].outcome.Some? then classes[t].outcome.value else Failure(def))
  {
    var init := defs[..|defs| - 1];
    if i == |init| {
      RanMeaning(classes, RanAll(classes, m, e, init).managers, e, defs[i]);
    } else {
      ResultsReported(classes, m, e, init, i);
    }
  }

  // ---------- Any definitions ----------

  /** Definitions that cannot be built never disturb the others: dropping them drops their results only. */
  lemma {:induction false} BrokenDefinitionsAreSkipped(classes: Classes, m: Managers, e: Entity, defs: seq<Definition>)
    ensures RanAll(classes, m, e, Buildable(classes, defs)).managers == RanAll(classes, m, e, defs).managers
  {
    if defs != [] {
      var init, last := defs[..|defs| - 1], defs[|defs| - 1];
      BrokenDefinitionsAreSkipped(classes, m, e, init);
      if Create(classes, last).Ok? {
        assert Buildable(classes, defs)[..|Buildable(classes, defs)| - 1] == Buildable(classes, init);
      } else {
        assert Buildable(classes, defs) == Buildable(classes, init);
      }
    }
  }

  function Buildable(classes: Classes, defs: seq<Definition>): seq<Definition> {
    if defs == [] then []
    else
      var last := defs[|defs| - 1];
      Buildable(classes, defs[..|defs| - 1]) + (if Create(classes, last).Ok? then [last] else [])
  }
}
