/**
 * The save/resume policy of plex.py: how a saved task is written
 * (`task_repr`), which saved tasks are reset (`should_reset`, `reset_task`),
 * and how `load` rebuilds the flow with `Task(**dct)`.
 *
 * A YAML document is modelled as the value it loads to. Python's dynamic
 * checks on those values are modelled where `load` hits them; values the
 * model's task fields cannot hold are reported as `Unsupported`.
 */
module Persistence {
  import opened Wrappers
  import opened Tasks

  /** The YAML values modelled: the scalars, lists and string-keyed mappings a manifest holds. */
  datatype Value =
    | Null
    | Bool(b: bool)
    | Int(i: int)
    | Float(f: real)
    | Str(s: string)
    | List(items: seq<Value>)
    | Dict(m: map<string, Value>)

  type Record = map<string, Value>

  /**
   * What escapes `load`: `KeyError` from `dct[k]` or `manifest[k]`, `TypeError`
   * from a call with a missing argument or an iteration over a non-iterable,
   * `AttributeError` from `.get` on something that is not a mapping or from setting
   * the read-only `status`, `ValueError` from `dict` of a string whose characters
   * are not key-value pairs, and `Unsupported` for a value Python accepts but the
   * task fields here cannot hold.
   */
  datatype LoadError = KeyError(key: string) | TypeError | AttributeError | ValueError | Unsupported(field: string)

  /** Python truthiness. */
  predicate Truthy(v: Value)
  {
    match v
    case Null => false
    case Bool(b) => b
    case Int(i) => i != 0
    case Float(f) => f != 0.0
    case Str(s) => |s| > 0
    case List(items) => |items| > 0
    case Dict(m) => |m| > 0
  }

  /** `v == 0` in Python: `False`, `0` and `0.0` equal `0`; no other value does. */
  predicate EqZero(v: Value)
  {
    v == Bool(false) || v == Int(0) || v == Float(0.0)
  }

  /** `dct.get(key, default)`. */
  function GetOr(d: Record, key: string, default: Value): Value
  {
    if key in d then d[key] else default
  }

  /**
   * `should_reset(dct)`: a started task is reset unless it completed with a
   * code equal to 0; there a missing code counts as 0. A task never started is kept.
   */
  predicate ShouldReset(d: Record)
  {
    if Truthy(GetOr(d, "started", Null)) then
      if Truthy(GetOr(d, "completed", Null)) then
        !EqZero(GetOr(d, "return_code", Int(0)))
      else true
    else false
  }

  /** `reset_task(dct)`: `select_keys(dct, 'name', 'command', 'depends')`; the first missing key raises. */
  function ResetTask(d: Record): (r: Result<Record, LoadError>)
    ensures r.Ok? <==> "name" in d && "command" in d && "depends" in d
    ensures r.Ok? ==> r.value.Keys == {"name", "command", "depends"} && forall k :: k in r.value ==> r.value[k] == d[k]
    ensures r.Err? ==> r.error == KeyError(if "name" !in d then "name" else if "command" !in d then "command" else "depends")
  {
    if "name" !in d then Err(KeyError("name"))
    else if "command" !in d then Err(KeyError("command"))
    else if "depends" !in d then Err(KeyError("depends"))
    else Ok(map["name" := d["name"], "command" := d["command"], "depends" := d["depends"]])
  }

  /** `set(depends) if depends else set()`. */
  function DependsSet(v: Value): (r: Result<set<string>, LoadError>)
    ensures !Truthy(v) ==> r == Ok({})
    ensures v.List? && |v.items| > 0 && (forall j :: 0 <= j < |v.items| ==> v.items[j].Str?) ==>
      r == Ok(set j | 0 <= j < |v.items| :: v.items[j].s)
  {
    if !Truthy(v) then Ok({})
    else match v
      case Str(s) => Ok(set j | 0 <= j < |s| :: [s[j]])
      case List(items) =>
        if forall j :: 0 <= j < |items| ==> items[j].Str? then Ok(set j | 0 <= j < |items| :: items[j].s)
        else Err(Unsupported("depends"))
      case Dict(m) => Ok(m.Keys)
      case _ => Err(TypeError)
  }

  /** A time field: `None`, or a number. */
  function TimeField(v: Value, field: string): Result<Option<Time>, LoadError>
  {
    match v
    case Null => Ok(None)
    case Float(f) => Ok(Some(f))
    case Int(i) => Ok(Some(i as real))
    case _ => Err(Unsupported(field))
  }

  /** The return code, as the comparisons with 0 see it (`True` is 1, `False` is 0). */
  function CodeField(v: Value): (r: Result<Option<int>, LoadError>)
    ensures v == Null ==> r == Ok(None)
    ensures v.Int? ==> r == Ok(Some(v.i))
    ensures r.Ok? && r.value.Some? ==> (r.value.value == 0 <==> EqZero(v))
  {
    match v
    case Null => Ok(None)
    case Int(i) => Ok(Some(i))
    case Bool(b) => Ok(Some(if b then 1 else 0))
    case _ => Err(Unsupported("return_code"))
  }

  /** The pane id field, which `task_repr` never writes. */
  function PaneField(v: Value): Result<Option<PaneId>, LoadError>
  {
    match v
    case Null => Ok(None)
    case Str(s) => Ok(Some(s))
    case _ => Err(Unsupported("pane_id"))
  }

  /**
   * `Task(**dct)`: `name` and `command` are required arguments, `depends`
   * defaults to no dependencies, and every other key overwrites the field
   * `__init__` set. `started` and `completed` are used only for their truth value.
   * A `status` key raises `AttributeError`, because `status` is a property without a setter.
   */
  function Construct(d: Record): (r: Result<TaskState, LoadError>)
    ensures "name" !in d || "command" !in d ==> r == Err(TypeError)
    ensures "name" in d && "command" in d && DependsSet(GetOr(d, "depends", Null)).Ok? && "status" in d ==>
      r == Err(AttributeError)
    ensures r.Ok? <==>
      && "name" in d && "command" in d && d["name"].Str? && d["command"].Str? && "status" !in d
      && DependsSet(GetOr(d, "depends", Null)).Ok?
      && TimeField(GetOr(d, "start_time", Null), "start_time").Ok?
      && TimeField(GetOr(d, "end_time", Null), "end_time").Ok?
      && CodeField(GetOr(d, "return_code", Null)).Ok?
      && PaneField(GetOr(d, "pane_id", Null)).Ok?
    ensures r.Ok? ==> Str(r.value.name) == d["name"] && Str(r.value.command) == d["command"]
    ensures r.Ok? ==> r.value.started == Truthy(GetOr(d, "started", Null))
    ensures r.Ok? ==> r.value.completed == Truthy(GetOr(d, "completed", Null))
    ensures r.Ok? ==> DependsSet(GetOr(d, "depends", Null)) == Ok(r.value.depends)
    ensures r.Ok? ==> TimeField(GetOr(d, "start_time", Null), "start_time") == Ok(r.value.startTime)
    ensures r.Ok? ==> TimeField(GetOr(d, "end_time", Null), "end_time") == Ok(r.value.endTime)
    ensures r.Ok? ==> CodeField(GetOr(d, "return_code", Null)) == Ok(r.value.returnCode)
    ensures r.Ok? ==> PaneField(GetOr(d, "pane_id", Null)) == Ok(r.value.paneId)
  {
    if "name" !in d || "command" !in d then Err(TypeError)
    else match DependsSet(GetOr(d, "depends", Null))
      case Err(e) => Err(e)
      case Ok(depends) =>
        if "status" in d then Err(AttributeError)
        else if !d["name"].Str? then Err(Unsupported("name"))
        else if !d["command"].Str? then Err(Unsupported("command"))
        else match (TimeField(GetOr(d, "start_time", Null), "start_time"),
                    TimeField(GetOr(d, "end_time", Null), "end_time"),
                    CodeField(GetOr(d, "return_code", Null)),
                    PaneField(GetOr(d, "pane_id", Null)))
          case (Err(e), _, _, _) => Err(e)
          case (_, Err(e), _, _) => Err(e)
          case (_, _, Err(e), _) => Err(e)
          case (_, _, _, Err(e)) => Err(e)
          case (Ok(startTime), Ok(endTime), Ok(returnCode), Ok(paneId)) =>
            Ok(TaskState(d["name"].s, d["command"].s, depends,
                         Truthy(GetOr(d, "started", Null)), Truthy(GetOr(d, "completed", Null)),
                         startTime, paneId, endTime, returnCode))
  }

  /** One element of `manifest['flow']`: `Task(**(reset_task(dct) if should_reset(dct) else dct))`. */
  function LoadTask(v: Value): (r: Result<TaskState, LoadError>)
    ensures !v.Dict? ==> r == Err(AttributeError)
  {
    match v
    case Dict(d) =>
      if ShouldReset(d) then
        match ResetTask(d)
        case Err(e) => Err(e)
        case Ok(kept) => Construct(kept)
      else Construct(d)
    case _ => Err(AttributeError)
  }

  /** The values of results that all succeeded, or the error of the first that failed. */
  function FirstError(results: seq<Result<TaskState, LoadError>>): (r: Result<seq<TaskState>, LoadError>)
    ensures r.Ok? ==> |r.value| == |results| && forall k :: 0 <= k < |results| ==> results[k] == Ok(r.value[k])
    ensures r.Err? ==>
      exists k: nat :: k < |results| && results[k] == Err(r.error) && forall j :: 0 <= j < k ==> results[j].Ok?
  {
    if |results| == 0 then Ok([])
    else match results[0]
      case Err(e) => Err(e)
      case Ok(t) =>
        var rest := FirstError(results[1..]);
        assert forall k :: 0 < k < |results| ==> results[k] == results[1..][k - 1];
        match rest
        case Err(e) =>
          var k: nat :| k < |results| - 1 && results[1..][k] == Err(e) && forall j :: 0 <= j < k ==> results[1..][j].Ok?;
          assert results[k + 1] == Err(e);
          Err(e)
        case Ok(ts) => Ok([t] + ts)
  }

  /** The comprehension over a list of saved tasks; the first failing element raises. */
  function LoadTasks(items: seq<Value>): (r: Result<seq<TaskState>, LoadError>)
    ensures r.Ok? ==> |r.value| == |items| && forall k :: 0 <= k < |items| ==> LoadTask(items[k]) == Ok(r.value[k])
    ensures r.Err? ==> exists k: nat :: FailsFirstAt(items, k) && LoadTask(items[k]) == Err(r.error)
  {
    var results := seq(|items|, k requires 0 <= k < |items| => LoadTask(items[k]));
    assert forall k :: 0 <= k < |items| ==> results[k] == LoadTask(items[k]);
    var r := FirstError(results);
    if r.Err? then
      var k: nat :| k < |results| && results[k] == Err(r.error) && forall j :: 0 <= j < k ==> results[j].Ok?;
      assert FailsFirstAt(items, k);
      r
    else r
  }

  /** Element `k` is the first whose loading fails. */
  predicate FailsFirstAt(items: seq<Value>, k: nat)
  {
    k < |items| && LoadTask(items[k]).Err? && forall j :: 0 <= j < k ==> LoadTask(items[j]).Ok?
  }

  /** When every element loads, the comprehension gives exactly their tasks. */
  lemma LoadTasksAllOk(items: seq<Value>, ts: seq<TaskState>)
    requires |ts| == |items| && forall k :: 0 <= k < |items| ==> LoadTask(items[k]) == Ok(ts[k])
    ensures LoadTasks(items) == Ok(ts)
  {
    var r := LoadTasks(items);
    if r.Ok? {
      assert r.value == ts;
    }
  }

  /** The loaded manifest: the flow, and the tmux environment. */
  datatype Loaded = Loaded(flow: seq<TaskState>, env: Record)

  /** `for dct in manifest['flow']`: iterating the value that key holds. */
  function FlowItems(v: Value): Result<seq<Value>, LoadError>
  {
    match v
    case List(items) => Ok(items)
    case Str(s) => if |s| == 0 then Ok([]) else Err(AttributeError)
    case Dict(m) => if |m| == 0 then Ok([]) else Err(AttributeError)
    case _ => Err(TypeError)
  }

  /**
   * `dict(manifest['env'])`. A non-empty string always raises, since each of its
   * elements is a one-character string and not a key-value pair.
   */
  function EnvOf(v: Value): Result<Record, LoadError>
  {
    match v
    case Dict(m) => Ok(m)
    case Str(s) => if |s| == 0 then Ok(map[]) else Err(ValueError)
    case List(items) => if |items| == 0 then Ok(map[]) else Err(Unsupported("env"))
    case _ => Err(TypeError)
  }

  /** `load(path)` on the document the file holds: the flow first, then the environment. */
  function LoadManifest(doc: Record): (r: Result<Loaded, LoadError>)
    ensures "flow" !in doc ==> r == Err(KeyError("flow"))
    ensures "flow" in doc && FlowItems(doc["flow"]).Err? ==> r == Err(FlowItems(doc["flow"]).error)
    ensures "flow" in doc && FlowItems(doc["flow"]).Ok? ==>
      var tasks := LoadTasks(FlowItems(doc["flow"]).value);
      && (tasks.Err? ==> r == Err(tasks.error))
      && (tasks.Ok? && "env" !in doc ==> r == Err(KeyError("env")))
      && (tasks.Ok? && "env" in doc && EnvOf(doc["env"]).Err? ==> r == Err(EnvOf(doc["env"]).error))
      && (tasks.Ok? && "env" in doc && EnvOf(doc["env"]).Ok? ==> r == Ok(Loaded(tasks.value, EnvOf(doc["env"]).value)))
    ensures r.Ok? ==> "flow" in doc && "env" in doc && EnvOf(doc["env"]) == Ok(r.value.env)
    ensures r.Ok? ==> exists items :: FlowItems(doc["flow"]) == Ok(items) && LoadTasks(items) == Ok(r.value.flow)
  {
    if "flow" !in doc then Err(KeyError("flow"))
    else match FlowItems(doc["flow"])
      case Err(e) => Err(e)
      case Ok(items) =>
        match LoadTasks(items)
        case Err(e) => Err(e)
        case Ok(flow) =>
          if "env" !in doc then Err(KeyError("env"))
          else match EnvOf(doc["env"])
            case Err(e) => Err(e)
            case Ok(env) => Ok(Loaded(flow, env))
  }

  /** A list `list(task.depends)` may give for a set: each element exactly once. */
  predicate Enumerates(order: seq<string>, s: set<string>)
  {
    && (forall a, b :: 0 <= a < b < |order| ==> order[a] != order[b])
    && (forall x :: x in s ==> x in order)
    && (forall x :: x in order ==> x in s)
  }

  function TimeValue(t: Option<Time>): Value
  {
    match t
    case None => Null
    case Some(x) => Float(x)
  }

  function CodeValue(c: Option<int>): Value
  {
    match c
    case None => Null
    case Some(n) => Int(n)
  }

  /**
   * `task_repr`: the record a task is saved as. It has eight keys; the pane id
   * is not among them, and `depends` is listed in the order `order` gives.
   */
  function TaskRepr(t: TaskState, order: seq<string>): (r: Record)
    requires Enumerates(order, t.depends)
    ensures r.Keys == {"name", "command", "depends", "started", "completed", "start_time", "end_time", "return_code"}
    ensures "pane_id" !in r
  {
    map[
      "name" := Str(t.name),
      "command" := Str(t.command),
      "depends" := List(seq(|order|, j requires 0 <= j < |order| => Str(order[j]))),
      "started" := Bool(t.started),
      "completed" := Bool(t.completed),
      "start_time" := TimeValue(t.startTime),
      "end_time" := TimeValue(t.endTime),
      "return_code" := CodeValue(t.returnCode)]
  }

  /** A saved task, rebuilt with `Task(**dct)`, equals the task itself but for its pane id. */
  lemma ConstructRepr(t: TaskState, order: seq<string>)
    requires Enumerates(order, t.depends)
    ensures Construct(TaskRepr(t, order)) == Ok(t.(paneId := None))
  {
    var d := TaskRepr(t, order);
    ReprDepends(t, order);
    assert "status" !in d && "pane_id" !in d;
    assert TimeField(d["start_time"], "start_time") == Ok(t.startTime);
    assert TimeField(d["end_time"], "end_time") == Ok(t.endTime);
    assert CodeField(d["return_code"]) == Ok(t.returnCode);
  }

  /** The saved `depends` list converts back to the task's dependencies. */
  lemma ReprDepends(t: TaskState, order: seq<string>)
    requires Enumerates(order, t.depends)
    ensures DependsSet(TaskRepr(t, order)["depends"]) == Ok(t.depends)
  {
    var items := TaskRepr(t, order)["depends"].items;
    if |order| > 0 {
      assert (set j | 0 <= j < |items| :: items[j].s) == t.depends by {
        forall x | x in t.depends ensures x in (set j | 0 <= j < |items| :: items[j].s) {
          var j :| 0 <= j < |order| && order[j] == x;
          assert items[j].s == x;
        }
      }
    } else {
      assert t.depends == {} by {
        assert forall x :: x in t.depends ==> x in order;
      }
    }
  }

  /**
   * A saved task is reset exactly when it was started and has not SUCCEEDED:
   * a STARTED or FAILED task, or one marked completed without a code.
   */
  lemma ShouldResetRepr(t: TaskState, order: seq<string>)
    requires Enumerates(order, t.depends)
    ensures ShouldReset(TaskRepr(t, order)) <==> t.started && StatusOf(t) != Succeeded
  {
  }

  /** What loading gives back for a saved task. */
  function Resumed(t: TaskState): (r: TaskState)
    ensures r.name == t.name && r.command == t.command && r.depends == t.depends
    ensures StatusOf(r) == if t.started && StatusOf(t) != Succeeded then Pending else StatusOf(t)
    ensures r.paneId == None
  {
    if t.started && StatusOf(t) != Succeeded then Fresh(t.name, t.command, t.depends) else t.(paneId := None)
  }

  /**
   * Loading a saved task: one that was started and did not succeed comes back
   * PENDING with only its name, command and dependencies; any other comes
   * back with every saved field as it was.
   */
  lemma ResumeTask(t: TaskState, order: seq<string>)
    requires Enumerates(order, t.depends)
    ensures LoadTask(Dict(TaskRepr(t, order))) == Ok(Resumed(t))
  {
    var d := TaskRepr(t, order);
    ConstructRepr(t, order);
    ShouldResetRepr(t, order);
    if ShouldReset(d) {
      var kept := ResetTask(d).value;
      assert kept == map["name" := d["name"], "command" := d["command"], "depends" := d["depends"]];
      assert Construct(kept).Ok? && Construct(kept).value.depends == t.depends;
    }
  }

  /**
   * A reset record is never reset again, and it loads as a PENDING task with
   * the record's name, command and dependencies and nothing else set.
   */
  lemma ResetLoadsPending(d: Record)
    requires ShouldReset(d) && LoadTask(Dict(d)).Ok?
    ensures var t := LoadTask(Dict(d)).value;
      && !ShouldReset(ResetTask(d).value)
      && t == Fresh(t.name, t.command, t.depends) && StatusOf(t) == Pending
      && Str(t.name) == d["name"] && Str(t.command) == d["command"]
      && DependsSet(d["depends"]) == Ok(t.depends)
  {
  }

  /** `yaml.dump(manifest)` after a run: the flow's tasks through `task_repr`, and the environment. */
  function SaveManifest(flow: seq<TaskState>, orders: seq<seq<string>>, env: Record): (r: Record)
    requires |orders| == |flow| && forall k :: 0 <= k < |flow| ==> Enumerates(orders[k], flow[k].depends)
    ensures r.Keys == {"flow", "env"} && r["env"] == Dict(env)
    ensures r["flow"].List? && |r["flow"].items| == |flow|
  {
    map["flow" := List(seq(|flow|, k requires 0 <= k < |flow| => Dict(TaskRepr(flow[k], orders[k])))),
        "env" := Dict(env)]
  }

  /**
   * Saving a flow and loading it back gives each task as `Resumed` has it, in
   * the same order, and the same environment.
   */
  lemma ResumeManifest(flow: seq<TaskState>, orders: seq<seq<string>>, env: Record)
    requires |orders| == |flow| && forall k :: 0 <= k < |flow| ==> Enumerates(orders[k], flow[k].depends)
    ensures LoadManifest(SaveManifest(flow, orders, env)) ==
      Ok(Loaded(seq(|flow|, k requires 0 <= k < |flow| => Resumed(flow[k])), env))
  {
    var doc := SaveManifest(flow, orders, env);
    var items := doc["flow"].items;
    assert FlowItems(doc["flow"]) == Ok(items);
    assert EnvOf(doc["env"]) == Ok(env);
    forall k | 0 <= k < |flow| ensures LoadTask(items[k]) == Ok(Resumed(flow[k])) {
      ResumeTask(flow[k], orders[k]);
    }
    assert LoadTasks(items).Ok?;
    assert LoadTasks(items).value == seq(|flow|, k requires 0 <= k < |flow| => Resumed(flow[k]));
  }

  /** The manifest as `load` returns it: task objects and the environment. */
  datatype Manifest = Manifest(flow: seq<Task>, env: Record)

  /** `load(path)` on the document the file holds, building one fresh `Task` per saved task. */
  method Load(doc: Record) returns (r: Result<Manifest, LoadError>)
    ensures match LoadManifest(doc)
      case Err(e) => r == Err(e)
      case Ok(m) =>
        r.Ok? && Distinct(r.value.flow) && (forall t :: t in r.value.flow ==> fresh(t)) &&
        Views(r.value.flow) == m.flow && r.value.env == m.env
  {
    if "flow" !in doc {
      return Err(KeyError("flow"));
    }
    var listed := FlowItems(doc["flow"]);
    if listed.Err? {
      return Err(listed.error);
    }
    var items := listed.value;
    var flow: seq<Task> := [];
    var i := 0;
    while i < |items|
      invariant 0 <= i <= |items| && |flow| == i
      invariant Distinct(flow) && forall t :: t in flow ==> fresh(t)
      invariant forall k :: 0 <= k < i ==> LoadTask(items[k]) == Ok(Views(flow)[k])
    {
      var loaded := LoadTask(items[i]);
      if loaded.Err? {
        assert FailsFirstAt(items, i);
        return Err(loaded.error);
      }
      var t := new Task(loaded.value);
      flow := flow + [t];
      i := i + 1;
    }
    LoadTasksAllOk(items, Views(flow));
    if "env" !in doc {
      return Err(KeyError("env"));
    }
    var env := EnvOf(doc["env"]);
    if env.Err? {
      return Err(env.error);
    }
    r := Ok(Manifest(flow, env.value));
  }
}

