/** The Streamlit prototype: validate(tasks), which decides whether the form
    may be sent, and build_payload, the data handed to the model. */
module Prototype {
  import opened Wrappers
  import opened Text

  /** The Python values a task dictionary or the payload can hold. */
  datatype PyValue =
    | PyStr(s: string)
    | PyInt(n: int)
    | PyNone
    | PyList(items: seq<PyValue>)
    | PyDict(entries: map<string, PyValue>)

  /** One task of the list: a dictionary keyed by field name. */
  type PyTask = map<string, PyValue>

  /** What validate(tasks) does: it returns the pair (ok, reason), or it
      raises (KeyError when a task has no title or description to read,
      AttributeError when that value is not a string). */
  datatype Outcome = Raised | Returned(ok: bool, reason: string)

  // ---------------------------------------------------------------------
  // str.strip
  // ---------------------------------------------------------------------

  /** str.isspace for one character: the characters Python strips by default. */
  predicate IsPySpace(c: char) {
    || ('\t' <= c <= '\r') || ('\U{1C}' <= c <= '\U{1F}') || c == ' '
    || c == '\U{85}' || c == '\U{A0}' || c == '\U{1680}' || ('\U{2000}' <= c <= '\U{200A}')
    || c == '\U{2028}' || c == '\U{2029}' || c == '\U{202F}' || c == '\U{205F}' || c == '\U{3000}'
  }

  predicate PyBlank(s: string) {
    forall i :: 0 <= i < |s| ==> IsPySpace(s[i])
  }

  /** s.strip(): whitespace removed from both ends. */
  function PyStrip(s: string): (r: string)
    ensures r == [] <==> PyBlank(s)
    ensures r == [] || (!IsPySpace(r[0]) && !IsPySpace(r[|r| - 1]))
    decreases |s|
  {
    if s == [] then []
    else if IsPySpace(s[0]) then
      var r := PyStrip(s[1..]);
      assert PyBlank(s) <==> PyBlank(s[1..]) by {
        if PyBlank(s[1..]) {
          forall i | 0 <= i < |s| ensures IsPySpace(s[i]) {
            if i > 0 { assert s[i] == s[1..][i - 1]; }
          }
        }
      }
      r
    else if IsPySpace(s[|s| - 1]) then
      var r := PyStrip(s[..|s| - 1]);
      assert !PyBlank(s[..|s| - 1]) by { assert s[..|s| - 1][0] == s[0]; }
      r
    else s
  }

  // ---------------------------------------------------------------------
  // validate(tasks)
  // ---------------------------------------------------------------------

  const TOO_FEW := "Você precisa preencher pelo menos 3 tarefas."

  /** The fields every filled task must hold, in the order they are checked. */
  const REQUIRED_KEYS: seq<string> :=
    ["impact", "effort", "reach", "confidence", "moscow", "gut_g", "gut_u", "gut_t"]

  /** The truth value of t["title"].strip(), or None where reading it raises. */
  function TitleFilled(t: PyTask): Option<bool> {
    if "title" !in t then None
    else match t["title"]
      case PyStr(s) => Some(PyStrip(s) != [])
      case _ => None
  }

  /** The list comprehension [t for t in tasks if t["title"].strip()], or None
      where it raises. */
  function FilledTasks(tasks: seq<PyTask>): (r: Option<seq<PyTask>>)
    ensures r.Some? ==> |r.value| <= |tasks|
  {
    if tasks == [] then Some([])
    else
      match TitleFilled(tasks[0])
      case None => None
      case Some(filled) =>
        match FilledTasks(tasks[1..])
        case None => None
        case Some(rest) => Some(if filled then [tasks[0]] + rest else rest)
  }

  /** The first of keys that t lacks or holds as None, reported for task i;
      None when t has them all. */
  function MissingKey(t: PyTask, i: nat, keys: seq<string>): (r: Option<Outcome>)
    ensures r.Some? ==> r.value.Returned? && !r.value.ok && r.value.reason != ""
    ensures r.None? <==> forall k :: k in keys ==> k in t && t[k] != PyNone
  {
    if keys == [] then None
    else if keys[0] !in t || t[keys[0]] == PyNone then
      Some(Returned(false, "Complete o campo " + keys[0] + " da tarefa " + NatToString(i) + "."))
    else
      var r := MissingKey(t, i, keys[1..]);
      assert forall k :: k in keys <==> k == keys[0] || k in keys[1..];
      r
  }

  /** The reason given for the i-th filled task when its description is blank. */
  function DescriptionMessage(i: nat): string {
    "Complete a descrição da tarefa " + NatToString(i) + "."
  }

  /** What the loop body does with the i-th filled task: None when it goes on
      to the next task, otherwise what validate then returns or raises. */
  function TaskCheck(t: PyTask, i: nat): Option<Outcome> {
    if "description" !in t then Some(Raised)
    else match t["description"]
      case PyStr(d) =>
        if PyStrip(d) == [] then Some(Returned(false, DescriptionMessage(i)))
        else MissingKey(t, i, REQUIRED_KEYS)
      case _ => Some(Raised)
  }

  /** t["description"].strip() is a non-empty string. */
  predicate DescriptionFilled(t: PyTask) {
    "description" in t && t["description"].PyStr? && !PyBlank(t["description"].s)
  }

  /** A filled task that passes: a non-blank description and every required
      field present and not None. */
  predicate TaskComplete(t: PyTask) {
    && DescriptionFilled(t)
    && forall k :: k in REQUIRED_KEYS ==> k in t && t[k] != PyNone
  }

  /** The loop over the filled tasks from position k (numbered from 1). */
  function CheckFrom(filled: seq<PyTask>, k: nat): Outcome
    decreases |filled| - k
  {
    if k >= |filled| then Returned(true, "")
    else
      match TaskCheck(filled[k], k + 1)
      case Some(o) => o
      case None => CheckFrom(filled, k + 1)
  }

  /** validate(tasks). */
  function Validate(tasks: seq<PyTask>): (r: Outcome)
    ensures r.Returned? && r.ok ==> FilledTasks(tasks).Some? && |FilledTasks(tasks).value| >= 3
  {
    match FilledTasks(tasks)
    case None => Raised
    case Some(filled) =>
      if |filled| < 3 then Returned(false, TOO_FEW) else CheckFrom(filled, 0)
  }

  /** The comprehension raises exactly when some title cannot be read as a
      string, and it keeps exactly the tasks whose title is not blank. */
  lemma {:induction false} FilledTasksSpec(tasks: seq<PyTask>)
    ensures FilledTasks(tasks).Some? <==> forall i :: 0 <= i < |tasks| ==> TitleFilled(tasks[i]).Some?
    ensures FilledTasks(tasks).Some? ==>
      forall t :: t in FilledTasks(tasks).value <==> t in tasks && TitleFilled(t) == Some(true)
  {
    if tasks != [] {
      FilledTasksSpec(tasks[1..]);
      assert forall t :: t in tasks <==> t == tasks[0] || t in tasks[1..];
      if FilledTasks(tasks).None? && TitleFilled(tasks[0]).Some? {
        var j :| 0 <= j < |tasks[1..]| && TitleFilled(tasks[1..][j]).None?;
        assert tasks[1..][j] == tasks[j + 1];
      }
      if FilledTasks(tasks).Some? {
        forall i | 0 <= i < |tasks| ensures TitleFilled(tasks[i]).Some? {
          if i > 0 { assert tasks[i] == tasks[1..][i - 1]; }
        }
      }
    }
  }

  /** The comprehension over a concatenation is the concatenation of the
      comprehensions, and raises when either part does. */
  lemma {:induction false} FilledTasksAppend(a: seq<PyTask>, b: seq<PyTask>)
    ensures FilledTasks(a + b) ==
      if FilledTasks(a).Some? && FilledTasks(b).Some? then Some(FilledTasks(a).value + FilledTasks(b).value) else None
  {
    if a == [] {
      assert a + b == b;
      if FilledTasks(b).Some? {
        assert [] + FilledTasks(b).value == FilledTasks(b).value;
      }
    } else {
      FilledTasksAppend(a[1..], b);
      assert (a + b)[0] == a[0];
      assert (a + b)[1..] == a[1..] + b;
      if FilledTasks(a).Some? && FilledTasks(b).Some? {
        var x := FilledTasks(a[1..]).value;
        var y := FilledTasks(b).value;
        assert [a[0]] + (x + y) == ([a[0]] + x) + y;
      }
    }
  }

  /** A filled task lets the loop go on exactly when it is complete. */
  lemma TaskCheckPasses(t: PyTask, i: nat)
    ensures TaskCheck(t, i).None? <==> TaskComplete(t)
    ensures TaskCheck(t, i).Some? ==>
      TaskCheck(t, i).value.Raised? || (!TaskCheck(t, i).value.ok && TaskCheck(t, i).value.reason != "")
  {
  }

  /** The loop reports the first filled task from k on that is not complete:
      it returns (True, "") when there is none, and otherwise what the check of
      that task gives. */
  lemma {:induction false} CheckFromFirstFailure(filled: seq<PyTask>, k: nat)
    ensures CheckFrom(filled, k) == Returned(true, "") <==> forall j :: k <= j < |filled| ==> TaskComplete(filled[j])
    ensures CheckFrom(filled, k) != Returned(true, "") ==>
      exists j :: k <= j < |filled| && TaskCheck(filled[j], j + 1) == Some(CheckFrom(filled, k))
        && forall m :: k <= m < j ==> TaskComplete(filled[m])
    decreases |filled| - k
  {
    if k < |filled| {
      var t := filled[k];
      TaskCheckPasses(t, k + 1);
      match TaskCheck(t, k + 1)
      case Some(o) =>
        assert CheckFrom(filled, k) == o != Returned(true, "");
        assert !TaskComplete(filled[k]);
      case None =>
        assert TaskComplete(filled[k]);
        assert CheckFrom(filled, k) == CheckFrom(filled, k + 1);
        CheckFromFirstFailure(filled, k + 1);
        if CheckFrom(filled, k + 1) != Returned(true, "") {
          var j :| k + 1 <= j < |filled| && TaskCheck(filled[j], j + 1) == Some(CheckFrom(filled, k + 1))
            && forall m :: k + 1 <= m < j ==> TaskComplete(filled[m]);
          assert forall m :: k <= m < j ==> TaskComplete(filled[m]);
        }
    }
  }

  /** validate accepts exactly when no title raises, at least three titles are
      filled, and every filled task is complete. */
  lemma ValidateOkIff(tasks: seq<PyTask>)
    ensures Validate(tasks) == Returned(true, "") <==>
      && FilledTasks(tasks).Some?
      && |FilledTasks(tasks).value| >= 3
      && forall t :: t in FilledTasks(tasks).value ==> TaskComplete(t)
  {
    if FilledTasks(tasks).Some? {
      var f := FilledTasks(tasks).value;
      CheckFromFirstFailure(f, 0);
      assert (forall t :: t in f ==> TaskComplete(t)) <==> forall j :: 0 <= j < |f| ==> TaskComplete(f[j]);
    }
  }

  /** When validate returns, its reason is empty exactly when it says ok. */
  lemma ValidateReasonEmptyIffOk(tasks: seq<PyTask>)
    requires Validate(tasks).Returned?
    ensures Validate(tasks).ok <==> Validate(tasks).reason == ""
  {
    if FilledTasks(tasks).Some? && |FilledTasks(tasks).value| >= 3 {
      var f := FilledTasks(tasks).value;
      CheckFromFirstFailure(f, 0);
      if CheckFrom(f, 0) != Returned(true, "") {
        var j :| 0 <= j < |f| && TaskCheck(f[j], j + 1) == Some(CheckFrom(f, 0));
        TaskCheckPasses(f[j], j + 1);
      }
    }
  }

  /** Fewer than three filled titles: validate refuses with TOO_FEW, whatever
      the filled tasks hold. */
  lemma ValidateTooFew(tasks: seq<PyTask>)
    requires FilledTasks(tasks).Some? && |FilledTasks(tasks).value| < 3
    ensures Validate(tasks) == Returned(false, TOO_FEW)
  {
  }

  /** A task whose title is blank is ignored: the description and fields it
      holds are never looked at, and it does not shift the numbers in the
      messages, wherever it sits in the list. */
  lemma BlankTitleIgnored(a: seq<PyTask>, blank: PyTask, b: seq<PyTask>)
    requires TitleFilled(blank) == Some(false)
    ensures Validate(a + [blank] + b) == Validate(a + b)
  {
    FilledTasksAppend(a, [blank]);
    FilledTasksAppend(a + [blank], b);
    FilledTasksAppend(a, b);
    assert [blank][1..] == [];
    if FilledTasks(a).Some? {
      assert FilledTasks(a).value + [] == FilledTasks(a).value;
    }
  }

  // ---------------------------------------------------------------------
  // Tasks as the form builds them
  // ---------------------------------------------------------------------

  /** title or "": None and "" both give "". */
  function OrEmpty(s: Option<string>): (r: string)
    ensures s.Some? ==> r == s.value
  {
    if s.Some? then s.value else ""
  }

  /** The dictionary the form appends for one slot: the two texts and the
      eight selectbox values, none of which is None. */
  function FormTask(title: Option<string>, description: Option<string>, impact: int, effort: int,
                    reach: int, confidence: int, moscow: string, gut_g: int, gut_u: int, gut_t: int): PyTask
  {
    map["title" := PyStr(OrEmpty(title)), "description" := PyStr(OrEmpty(description)),
        "impact" := PyInt(impact), "effort" := PyInt(effort), "reach" := PyInt(reach),
        "confidence" := PyInt(confidence), "moscow" := PyStr(moscow),
        "gut_g" := PyInt(gut_g), "gut_u" := PyInt(gut_u), "gut_t" := PyInt(gut_t)]
  }

  /** The shape every form-built task has: string title and description, and
      every required field set. */
  predicate FromForm(t: PyTask) {
    && "title" in t && t["title"].PyStr?
    && "description" in t && t["description"].PyStr?
    && forall k :: k in REQUIRED_KEYS ==> k in t && t[k] != PyNone
  }

  lemma FormTaskFromForm(title: Option<string>, description: Option<string>, impact: int, effort: int,
                         reach: int, confidence: int, moscow: string, gut_g: int, gut_u: int, gut_t: int)
    ensures FromForm(FormTask(title, description, impact, effort, reach, confidence, moscow, gut_g, gut_u, gut_t))
  {
    var t := FormTask(title, description, impact, effort, reach, confidence, moscow, gut_g, gut_u, gut_t);
    forall k | k in REQUIRED_KEYS ensures k in t && t[k] != PyNone {
      var j :| 0 <= j < |REQUIRED_KEYS| && REQUIRED_KEYS[j] == k;
    }
  }

  /** A form-built task is complete exactly when its description is filled. */
  lemma FormTaskComplete(t: PyTask)
    requires FromForm(t)
    ensures TaskComplete(t) <==> DescriptionFilled(t)
  {
  }

  /** The check of a form-built task never raises. */
  lemma FormTaskCheckReturns(t: PyTask, i: nat)
    requires FromForm(t)
    ensures TaskCheck(t, i) != Some(Raised)
  {
  }

  /** On the tasks the form builds validate never raises, and it accepts
      exactly when at least three titles are filled and every filled task has
      a description. */
  lemma ValidateFormTasks(tasks: seq<PyTask>)
    requires forall i :: 0 <= i < |tasks| ==> FromForm(tasks[i])
    ensures Validate(tasks) != Raised
    ensures Validate(tasks) == Returned(true, "") <==>
      && |FilledTasks(tasks).value| >= 3
      && forall t: PyTask :: t in FilledTasks(tasks).value ==> DescriptionFilled(t)
  {
    FilledTasksSpec(tasks);
    var f := FilledTasks(tasks).value;
    assert forall t :: t in f ==> FromForm(t) by {
      forall t | t in f ensures FromForm(t) {
        var i :| 0 <= i < |tasks| && tasks[i] == t;
      }
    }
    forall t | t in f ensures TaskComplete(t) <==> DescriptionFilled(t) {
      FormTaskComplete(t);
    }
    ValidateOkIff(tasks);
    if |f| >= 3 && CheckFrom(f, 0) != Returned(true, "") {
      CheckFromFirstFailure(f, 0);
      var j :| 0 <= j < |f| && TaskCheck(f[j], j + 1) == Some(CheckFrom(f, 0));
      FormTaskCheckReturns(f[j], j + 1);
    }
  }

  // ---------------------------------------------------------------------
  // build_payload
  // ---------------------------------------------------------------------

  /** The methods the selectbox offers. */
  datatype Method = RICE | MOSCOW | IMPACT_EFFORT | GUT

  function MethodName(m: Method): string {
    match m
    case RICE => "RICE"
    case MOSCOW => "MOSCOW"
    case IMPACT_EFFORT => "IMPACT_EFFORT"
    case GUT => "GUT"
  }

  function ParseMethod(s: string): Option<Method> {
    if s == "RICE" then Some(RICE)
    else if s == "MOSCOW" then Some(MOSCOW)
    else if s == "IMPACT_EFFORT" then Some(IMPACT_EFFORT)
    else if s == "GUT" then Some(GUT)
    else None
  }

  const SCALES := "Todos os campos numéricos usam escala 1 (baixo) a 5 (alto)."
  const NOTE := "Gerar priorização objetiva, justificativa curta por item e estimativa de tempo economizado em %."

  /** The list of task dictionaries as one Python value. */
  function TaskList(tasks: seq<PyTask>): (r: seq<PyValue>)
    ensures |r| == |tasks|
  {
    if tasks == [] then [] else [PyDict(tasks[0])] + TaskList(tasks[1..])
  }

  /** Reads a list of dictionaries back as tasks. */
  function TasksOf(items: seq<PyValue>): Option<seq<PyTask>> {
    if items == [] then Some([])
    else if !items[0].PyDict? then None
    else
      match TasksOf(items[1..])
      case None => None
      case Some(rest) => Some([items[0].entries] + rest)
  }

  /** build_payload(name, method, tasks). */
  function BuildPayload(name: string, criterion: Method, tasks: seq<PyTask>): (r: map<string, PyValue>)
    ensures r.Keys == {"user_name", "method", "tasks", "scales", "note"}
    ensures r["scales"] == PyStr(SCALES) && r["note"] == PyStr(NOTE)
  {
    map["user_name" := PyStr(name), "method" := PyStr(MethodName(criterion)), "tasks" := PyList(TaskList(tasks)),
        "scales" := PyStr(SCALES), "note" := PyStr(NOTE)]
  }

  /** The name, method and tasks a payload carries, if it has that shape. */
  function ReadPayload(p: map<string, PyValue>): Option<(string, Method, seq<PyTask>)> {
    if "user_name" !in p || "method" !in p || "tasks" !in p then None
    else if !p["user_name"].PyStr? || !p["method"].PyStr? || !p["tasks"].PyList? then None
    else
      match ParseMethod(p["method"].s)
      case None => None
      case Some(m) =>
        match TasksOf(p["tasks"].items)
        case None => None
        case Some(ts) => Some((p["user_name"].s, m, ts))
  }

  lemma {:induction false} TasksOfTaskList(tasks: seq<PyTask>)
    ensures TasksOf(TaskList(tasks)) == Some(tasks)
  {
    if tasks != [] {
      var items := TaskList(tasks);
      var rest := TaskList(tasks[1..]);
      assert items == [PyDict(tasks[0])] + rest;
      assert items[0] == PyDict(tasks[0]) && items[1..] == rest;
      TasksOfTaskList(tasks[1..]);
      assert TasksOf(items) == Some([tasks[0]] + tasks[1..]);
      assert [tasks[0]] + tasks[1..] == tasks;
    }
  }

  /** The payload carries name, method and tasks unchanged. */
  lemma ReadBuildPayload(name: string, criterion: Method, tasks: seq<PyTask>)
    ensures ReadPayload(BuildPayload(name, criterion, tasks)) == Some((name, criterion, tasks))
  {
    TasksOfTaskList(tasks);
  }
}
