/** The request validation of the Cloudflare Worker (worker/index.js): the
    text and number validators, readJson's body check, the checks that
    /prioritize, /calmai and /briefai apply before calling the completion API,
    and the question-mark scrub applied to the /briefai answer. */
module Worker {
  import opened Wrappers
  import opened Text
  import opened JsValue

  /** An error response.  A handler's own json({ error }, 400) is status 400; an
      Error thrown anywhere is caught by fetch and answered with status 500 and
      the Error's message. */
  datatype Failure = Failure(status: nat, message: string)

  function Thrown<T>(message: string): Result<T, Failure> {
    Err(Failure(500, message))
  }

  function Rejected<T>(message: string): Result<T, Failure> {
    Err(Failure(400, message))
  }

  const XSS_PATTERNS: seq<string> :=
    ["<script", "</script", "<iframe", "<object", "<embed", "<svg", "javascript:", "onerror=", "onload="]

  const SQLI_PATTERNS: seq<string> :=
    [" union select", "drop table", "insert into", "delete from", "update ", " or 1=1",
     "' or '1'='1", "\" or \"1\"=\"1", "--", "/*", "*/"]

  /** cleanText(text): String(text || "") without NUL characters, trimmed;
      String() throws a TypeError on the values Unprintable describes. */
  function CleanValue(value: Value): (r: Result<string, Failure>)
    ensures r.Err? <==> Unprintable(value)
    ensures r.Err? ==> r.error == Failure(500, TO_PRIMITIVE_ERROR)
    ensures r.Ok? ==> Cleaned(r.value)
    ensures value.Str? ==> r == Ok(CleanText(value.s))
    ensures !Truthy(value) ==> r == Ok("")
  {
    if !Truthy(value) then Ok(CleanText(""))
    else
      match ToText(value)
      case Err(e) => Thrown(e)
      case Ok(raw) => Ok(CleanText(raw))
  }

  /** A lower-cased text contains one of the XSS or SQL-injection patterns. */
  predicate Flagged(t: string) {
    ContainsAny(t, XSS_PATTERNS) || ContainsAny(t, SQLI_PATTERNS)
  }

  /** Every pattern of both lists is at least two characters long. */
  lemma PatternsAtLeastTwo()
    ensures forall k :: 0 <= k < |XSS_PATTERNS| ==> |XSS_PATTERNS[k]| >= 2
    ensures forall k :: 0 <= k < |SQLI_PATTERNS| ==> |SQLI_PATTERNS[k]| >= 2
  {
  }

  /** looksLikeInjection(text) on a string: the cleaned, lower-cased text is
      flagged.  Only a text of two or more characters can be. */
  predicate LooksLikeInjection(text: string)
    ensures LooksLikeInjection(text) ==> |CleanText(text)| >= 2
  {
    PatternsAtLeastTwo();
    ContainsAnyLength(Lower(CleanText(text)), XSS_PATTERNS, 2);
    ContainsAnyLength(Lower(CleanText(text)), SQLI_PATTERNS, 2);
    Flagged(Lower(CleanText(text)))
  }

  /** looksLikeInjection is the substring blacklist: one of the patterns of
      either list is included in the cleaned, lower-cased text. */
  lemma LooksLikeInjectionIff(text: string)
    ensures LooksLikeInjection(text) <==>
      || (exists k :: 0 <= k < |XSS_PATTERNS| && Contains(Lower(CleanText(text)), XSS_PATTERNS[k]))
      || (exists k :: 0 <= k < |SQLI_PATTERNS| && Contains(Lower(CleanText(text)), SQLI_PATTERNS[k]))
  {
    ContainsAnyIff(Lower(CleanText(text)), XSS_PATTERNS);
    ContainsAnyIff(Lower(CleanText(text)), SQLI_PATTERNS);
  }

  /** A clean text in whose lower-cased form one of the patterns occurs is
      flagged. */
  lemma OccurrenceFlagged(s: string, ps: seq<string>, k: nat, i: nat)
    requires Cleaned(s)
    requires ps == XSS_PATTERNS || ps == SQLI_PATTERNS
    requires k < |ps| && OccursAt(Lower(s), ps[k], i)
    ensures LooksLikeInjection(s)
  {
    CleanTextFixedPoint(s);
    ContainsIffOccurs(Lower(s), ps[k]);
    ContainsAnyIff(Lower(s), ps);
  }

  /** Upper case does not hide a pattern. */
  lemma UpperCaseScriptFlagged()
    ensures LooksLikeInjection("<SCRIPT")
  {
    var s := "<SCRIPT";
    assert Cleaned(s);
    assert Lower(s)[0..7] == XSS_PATTERNS[0] by {
      forall k | 0 <= k < 7 ensures Lower(s)[k] == "<script"[k] {}
    }
    OccurrenceFlagged(s, XSS_PATTERNS, 0, 0);
  }

  /** An SQL comment marker is caught inside a sentence. */
  lemma CommentMarkerFlagged()
    ensures LooksLikeInjection("a -- b")
  {
    var s := "a -- b";
    assert Cleaned(s);
    assert Lower(s)[2..4] == SQLI_PATTERNS[8] by {
      forall k | 2 <= k < 4 ensures Lower(s)[k] == '-' {}
    }
    OccurrenceFlagged(s, SQLI_PATTERNS, 8, 2);
  }

  /** What every non-empty string mustBeString returns satisfies: clean,
      with a length (in UTF-16 code units, as String.prototype.length counts)
      within the bounds, and not flagged once lower-cased (for a clean string
      this is !LooksLikeInjection, see SafeTextNotInjection). */
  predicate SafeText(s: string, min: int, max: int) {
    Cleaned(s) && min <= Utf16Length(s) <= max && !Flagged(Lower(s))
  }

  lemma SafeTextNotInjection(s: string, min: int, max: int)
    requires Cleaned(s)
    ensures SafeText(s, min, max) <==> min <= Utf16Length(s) <= max && !LooksLikeInjection(s)
  {
    CleanTextFixedPoint(s);
  }

  /** mustBeString(name, value, { required, min, max }). */
  function MustBeString(name: string, value: Value, required: bool, min: int, max: int): (r: Result<string, Failure>)
    ensures r.Ok? ==> CleanValue(value) == Ok(r.value)
    ensures Unprintable(value) ==> r == Err(Failure(500, TO_PRIMITIVE_ERROR))
    ensures CleanValue(value) == Ok("") ==> (r.Ok? <==> !required)
    ensures r.Ok? && r.value != "" ==> SafeText(r.value, min, max)
    ensures CleanValue(value).Ok? && CleanValue(value).value != "" && SafeText(CleanValue(value).value, min, max) ==> r.Ok?
    ensures r.Err? ==> r.error.status == 500
  {
    var v :- CleanValue(value);
    if required && v == "" then Thrown("Preencha: " + name + ".")
    else if !required && v == "" then Ok("")
    else if Utf16Length(v) < min then Thrown(name + " muito curto.")
    else if Utf16Length(v) > max then Thrown(name + " passou do limite de caracteres.")
    else
      SafeTextNotInjection(v, min, max);
      if LooksLikeInjection(v) then Thrown(name + " parece ter conteúdo perigoso.")
      else Ok(v)
  }

  /** mustBeInt(name, value, { min, max }): Number(value) must be an integer
      in [min, max]; Number() throws a TypeError on the values Unprintable
      describes. */
  function MustBeInt(name: string, value: Value, min: int, max: int): (r: Result<int, Failure>)
    ensures r.Ok? <==> ToNumber(value).Ok? && exists k :: min <= k <= max && EqualsInt(ToNumber(value).value, k)
    ensures r.Ok? ==> min <= r.value <= max && EqualsInt(ToNumber(value).value, r.value)
    ensures Unprintable(value) ==> r == Err(Failure(500, TO_PRIMITIVE_ERROR))
    ensures r.Err? ==> r.error.status == 500
  {
    match ToNumber(value)
    case Err(e) => Thrown(e)
    case Ok(n) =>
      if !IsInteger(n) then
        assert forall k :: !EqualsInt(n, k) by {
          forall k ensures !EqualsInt(n, k) { IntValueExact(n, k); }
        }
        Thrown(name + " inválido.")
      else
        var k := IntValue(n);
        IntValueExact(n, k);
        if k < min || k > max then
          assert forall j :: EqualsInt(n, j) ==> j == k by {
            forall j ensures EqualsInt(n, j) ==> j == k { IntValueExact(n, j); }
          }
          Thrown(name + " fora do intervalo.")
        else Ok(k)
  }

  /** A number sent as its decimal numeral passes mustBeInt exactly when it
      is in range, and the result is that number. */
  lemma MustBeIntOfNumeral(name: string, n: nat, min: int, max: int)
    ensures MustBeInt(name, Str(NatToString(n)), min, max).Ok? <==> min <= n <= max
    ensures MustBeInt(name, Str(NatToString(n)), min, max).Ok? ==> MustBeInt(name, Str(NatToString(n)), min, max).value == n
  {
    StrToNumberOfNatToString(n);
    IntValueExact(Finite(Dec(n, 0)), n);
    forall k | EqualsInt(Finite(Dec(n, 0)), k) ensures k == n {
      IntValueExact(Finite(Dec(n, 0)), k);
    }
  }

  /** readJson's check on the parsed body (None: request.json() failed): only
      arrays and objects pass, since `!payload || typeof payload !== "object"`
      rejects null and every primitive. */
  function ReadJson(parsed: Option<Value>): (r: Result<Value, Failure>)
    ensures r.Ok? <==> parsed.Some? && (parsed.value.Arr? || parsed.value.Obj?)
    ensures r.Ok? ==> r.value == parsed.value
    ensures r.Err? ==> r.error.status == 500
  {
    match parsed
    case None => Thrown("JSON inválido.")
    case Some(v) =>
      if !Truthy(v) || !(v.Arr? || v.Obj?) then Thrown("Body inválido.") else Ok(v)
  }

  /** v[key] on a value that is neither null nor undefined: the field on an
      object (Undefined when absent), and Undefined on every other value,
      since none of the keys the handlers read is a property of a primitive
      or of an array. */
  function Field(v: Value, key: string): (r: Value)
    ensures (!v.Obj? || forall j :: 0 <= j < |v.fields| ==> v.fields[j].0 != key) ==> r == Undefined
    ensures v.Obj? ==> forall j :: 0 <= j < |v.fields| && v.fields[j].0 == key && (forall i :: 0 <= i < j ==> v.fields[i].0 != key) ==>
      r == v.fields[j].1
  {
    if v.Obj? then
      assert forall j :: 0 <= j < |v.fields| && v.fields[j].0 == key && (forall i :: 0 <= i < j ==> v.fields[i].0 != key) ==>
        Lookup(v.fields, key) == v.fields[j].1 by {
        forall j | 0 <= j < |v.fields| && v.fields[j].0 == key && (forall i :: 0 <= i < j ==> v.fields[i].0 != key) {
          LookupFirst(v.fields, key, j);
        }
      }
      Lookup(v.fields, key)
    else Undefined
  }

  /** The TypeError that reading a property of null or undefined throws. */
  function PropertyOfNullish(v: Value, key: string): Failure {
    Failure(500, "Cannot read properties of " + (if v.Null? then "null" else "undefined") + " (reading '" + key + "')")
  }

  // ---------------------------------------------------------------------
  // /prioritize
  // ---------------------------------------------------------------------

  const MAX_TASKS := 10
  const MIN_TASKS := 3

  /** One validated task, as handlePrioritize passes it on. */
  datatype Task = Task(
    title: string,
    description: string,
    importance: int,
    time_cost: int,
    importance_label: string,
    time_label: string)

  datatype PrioritizeRequest = PrioritizeRequest(name: string, methodName: string, tasks: seq<Task>)

  predicate ValidTask(t: Task) {
    && SafeText(t.title, 3, 80)
    && SafeText(t.description, 10, 800)
    && 1 <= t.importance <= 5
    && 1 <= t.time_cost <= 5
    && SafeText(t.importance_label, 2, 60)
    && SafeText(t.time_label, 2, 60)
  }

  /** The field name in the messages about the task at position idx. */
  function TaskField(idx: nat, what: string): string {
    "Tarefa " + NatToString(idx + 1) + " - " + what
  }

  /** The callback of tasksRaw.map for the task at position idx. */
  function ValidateTask(task: Value, idx: nat): (r: Result<Task, Failure>)
    ensures r.Ok? ==> ValidTask(r.value)
    ensures r.Err? ==> r.error.status == 500
  {
    if task.Null? || task.Undefined? then Err(PropertyOfNullish(task, "title"))
    else
      var title :- MustBeString(TaskField(idx, "título"), Field(task, "title"), true, 3, 80);
      var description :- MustBeString(TaskField(idx, "descrição"), Field(task, "description"), true, 10, 800);
      var importance :- MustBeInt(TaskField(idx, "importância"), Field(task, "importance"), 1, 5);
      var time_cost :- MustBeInt(TaskField(idx, "tempo"), Field(task, "time_cost"), 1, 5);
      var importance_label :- MustBeString(TaskField(idx, "rótulo importância"), Field(task, "importance_label"), true, 2, 60);
      var time_label :- MustBeString(TaskField(idx, "rótulo tempo"), Field(task, "time_label"), true, 2, 60);
      Ok(Task(title, description, importance, time_cost, importance_label, time_label))
  }

  /** The callback accepts a task exactly when it is not null or undefined and
      all six of its fields pass. */
  lemma ValidateTaskAccepts(task: Value, idx: nat)
    ensures ValidateTask(task, idx).Ok? <==>
      && !task.Null? && !task.Undefined?
      && MustBeString(TaskField(idx, "título"), Field(task, "title"), true, 3, 80).Ok?
      && MustBeString(TaskField(idx, "descrição"), Field(task, "description"), true, 10, 800).Ok?
      && MustBeInt(TaskField(idx, "importância"), Field(task, "importance"), 1, 5).Ok?
      && MustBeInt(TaskField(idx, "tempo"), Field(task, "time_cost"), 1, 5).Ok?
      && MustBeString(TaskField(idx, "rótulo importância"), Field(task, "importance_label"), true, 2, 60).Ok?
      && MustBeString(TaskField(idx, "rótulo tempo"), Field(task, "time_label"), true, 2, 60).Ok?
    ensures task.Null? || task.Undefined? ==> ValidateTask(task, idx) == Err(PropertyOfNullish(task, "title"))
  {
    if !task.Null? && !task.Undefined? {
      if && MustBeString(TaskField(idx, "título"), Field(task, "title"), true, 3, 80).Ok?
         && MustBeString(TaskField(idx, "descrição"), Field(task, "description"), true, 10, 800).Ok?
         && MustBeInt(TaskField(idx, "importância"), Field(task, "importance"), 1, 5).Ok?
         && MustBeInt(TaskField(idx, "tempo"), Field(task, "time_cost"), 1, 5).Ok?
         && MustBeString(TaskField(idx, "rótulo importância"), Field(task, "importance_label"), true, 2, 60).Ok?
         && MustBeString(TaskField(idx, "rótulo tempo"), Field(task, "time_label"), true, 2, 60).Ok?
      {
        ValidateTaskAllOk(task, idx);
      } else {
        ValidateTaskRejects(task, idx);
      }
    }
  }

  /** A task none of whose six fields fails is accepted, with the values the
      checks return. */
  lemma ValidateTaskAllOk(task: Value, idx: nat)
    requires !task.Null? && !task.Undefined?
    requires MustBeString(TaskField(idx, "título"), Field(task, "title"), true, 3, 80).Ok?
    requires MustBeString(TaskField(idx, "descrição"), Field(task, "description"), true, 10, 800).Ok?
    requires MustBeInt(TaskField(idx, "importância"), Field(task, "importance"), 1, 5).Ok?
    requires MustBeInt(TaskField(idx, "tempo"), Field(task, "time_cost"), 1, 5).Ok?
    requires MustBeString(TaskField(idx, "rótulo importância"), Field(task, "importance_label"), true, 2, 60).Ok?
    requires MustBeString(TaskField(idx, "rótulo tempo"), Field(task, "time_label"), true, 2, 60).Ok?
    ensures ValidateTask(task, idx) == Ok(Task(
      MustBeString(TaskField(idx, "título"), Field(task, "title"), true, 3, 80).value,
      MustBeString(TaskField(idx, "descrição"), Field(task, "description"), true, 10, 800).value,
      MustBeInt(TaskField(idx, "importância"), Field(task, "importance"), 1, 5).value,
      MustBeInt(TaskField(idx, "tempo"), Field(task, "time_cost"), 1, 5).value,
      MustBeString(TaskField(idx, "rótulo importância"), Field(task, "importance_label"), true, 2, 60).value,
      MustBeString(TaskField(idx, "rótulo tempo"), Field(task, "time_label"), true, 2, 60).value))
  {
  }

  /** A task one of whose six fields fails is refused. */
  lemma ValidateTaskRejects(task: Value, idx: nat)
    requires !task.Null? && !task.Undefined?
    requires !(
      && MustBeString(TaskField(idx, "título"), Field(task, "title"), true, 3, 80).Ok?
      && MustBeString(TaskField(idx, "descrição"), Field(task, "description"), true, 10, 800).Ok?
      && MustBeInt(TaskField(idx, "importância"), Field(task, "importance"), 1, 5).Ok?
      && MustBeInt(TaskField(idx, "tempo"), Field(task, "time_cost"), 1, 5).Ok?
      && MustBeString(TaskField(idx, "rótulo importância"), Field(task, "importance_label"), true, 2, 60).Ok?
      && MustBeString(TaskField(idx, "rótulo tempo"), Field(task, "time_label"), true, 2, 60).Ok?)
    ensures ValidateTask(task, idx).Err?
  {
  }

  /** The task the callback returns is made of the cleaned texts and the
      integers the fields denote. */
  lemma ValidateTaskFields(task: Value, idx: nat)
    requires ValidateTask(task, idx).Ok?
    ensures CleanValue(Field(task, "title")) == Ok(ValidateTask(task, idx).value.title)
    ensures CleanValue(Field(task, "description")) == Ok(ValidateTask(task, idx).value.description)
    ensures ToNumber(Field(task, "importance")).Ok?
    ensures EqualsInt(ToNumber(Field(task, "importance")).value, ValidateTask(task, idx).value.importance)
    ensures ToNumber(Field(task, "time_cost")).Ok?
    ensures EqualsInt(ToNumber(Field(task, "time_cost")).value, ValidateTask(task, idx).value.time_cost)
    ensures CleanValue(Field(task, "importance_label")) == Ok(ValidateTask(task, idx).value.importance_label)
    ensures CleanValue(Field(task, "time_label")) == Ok(ValidateTask(task, idx).value.time_label)
  {
    var title := MustBeString(TaskField(idx, "título"), Field(task, "title"), true, 3, 80);
    var description := MustBeString(TaskField(idx, "descrição"), Field(task, "description"), true, 10, 800);
    var importance := MustBeInt(TaskField(idx, "importância"), Field(task, "importance"), 1, 5);
    var time_cost := MustBeInt(TaskField(idx, "tempo"), Field(task, "time_cost"), 1, 5);
    var importance_label := MustBeString(TaskField(idx, "rótulo importância"), Field(task, "importance_label"), true, 2, 60);
    var time_label := MustBeString(TaskField(idx, "rótulo tempo"), Field(task, "time_label"), true, 2, 60);
    assert ValidateTask(task, idx) == Ok(Task(title.value, description.value, importance.value, time_cost.value,
                                              importance_label.value, time_label.value));
  }

  /** The outcome of a list of results produced in order: all the values
      when every one is Ok, otherwise the error of the first that is not. */
  function AllOk<T, E>(rs: seq<Result<T, E>>): (r: Result<seq<T>, E>)
    ensures r.Ok? ==> |r.value| == |rs| && forall i :: 0 <= i < |rs| ==> rs[i].Ok? && rs[i].value == r.value[i]
    ensures r.Err? ==> exists j :: 0 <= j < |rs| && rs[j].Err? && rs[j].error == r.error
                                   && forall i :: 0 <= i < j ==> rs[i].Ok?
  {
    if rs == [] then Ok([])
    else
      match rs[0]
      case Err(e) => Err(e)
      case Ok(first) =>
        var tail := AllOk(rs[1..]);
        assert forall i :: 1 <= i < |rs| ==> rs[i] == rs[1..][i - 1];
        match tail
        case Err(e) =>
          assert exists j :: 1 <= j < |rs| && rs[j].Err? && rs[j].error == e && forall i :: 0 <= i < j ==> rs[i].Ok? by {
            var j :| 0 <= j < |rs[1..]| && rs[1..][j].Err? && rs[1..][j].error == e && forall i :: 0 <= i < j ==> rs[1..][i].Ok?;
            assert rs[j + 1] == rs[1..][j];
          }
          Err(e)
        case Ok(rest) => Ok([first] + rest)
  }

  /** xs.map(f) with a callback that may throw: f(x, i) on every element in
      order, and the first error thrown ends the map. */
  function MapAll<T, U, E>(xs: seq<T>, f: (T, nat) -> Result<U, E>): (r: Result<seq<U>, E>)
    ensures r.Ok? ==> |r.value| == |xs| && forall i :: 0 <= i < |xs| ==> f(xs[i], i).Ok? && f(xs[i], i).value == r.value[i]
    ensures r.Err? ==> exists j :: 0 <= j < |xs| && f(xs[j], j).Err? && f(xs[j], j).error == r.error
                                   && forall i :: 0 <= i < j ==> f(xs[i], i).Ok?
  {
    var rs := seq(|xs|, i requires 0 <= i < |xs| => f(xs[i], i));
    assert forall i :: 0 <= i < |xs| ==> rs[i] == f(xs[i], i);
    AllOk(rs)
  }

  /** The map succeeds exactly when the callback succeeds on every element. */
  lemma MapAllOkIff<T, U, E>(xs: seq<T>, f: (T, nat) -> Result<U, E>)
    ensures MapAll(xs, f).Ok? <==> forall i :: 0 <= i < |xs| ==> f(xs[i], i).Ok?
  {
  }

  /** body.tasks.slice(0, 10). */
  function Take(xs: seq<Value>, n: nat): (r: seq<Value>)
    ensures |r| == if |xs| < n then |xs| else n
    ensures r == xs[..|r|]
  {
    if |xs| <= n then xs else xs[..n]
  }

  /** The checks of handlePrioritize on `tasks`, after name and method. */
  function ValidateTaskList(tasks: Value): (r: Result<seq<Task>, Failure>)
    ensures !tasks.Arr? ==> r.Err? && r.error.status == 400
    ensures tasks.Arr? && |tasks.items| < MIN_TASKS ==> r.Err? && r.error.status == 400
    ensures r.Ok? ==> tasks.Arr? && MIN_TASKS <= |r.value| <= MAX_TASKS
    ensures r.Ok? ==> |r.value| == if |tasks.items| < MAX_TASKS then |tasks.items| else MAX_TASKS
    ensures r.Ok? ==> forall t :: t in r.value ==> ValidTask(t)
  {
    if !tasks.Arr? then Rejected("tasks deve ser uma lista.")
    else
      var raw := Take(tasks.items, MAX_TASKS);
      if |raw| < MIN_TASKS then Rejected("Envie no mínimo 3 tarefas.")
      else
        ValidatedTasksValid(raw);
        MapAll(raw, ValidateTask)
  }

  /** A list of at least three tasks is accepted exactly when each of its
      first ten passes the callback. */
  lemma ValidateTaskListAccepts(tasks: Value)
    ensures ValidateTaskList(tasks).Ok? <==>
      (tasks.Arr? && |tasks.items| >= MIN_TASKS
       && forall i :: 0 <= i < |tasks.items| && i < MAX_TASKS ==> ValidateTask(tasks.items[i], i).Ok?)
  {
    if tasks.Arr? && |tasks.items| >= MIN_TASKS {
      ValidateTaskListMaps(tasks);
      MapAllTake(tasks.items, ValidateTask, MAX_TASKS);
    }
  }

  /** The i-th task of an accepted list is what the callback made of the i-th
      element. */
  lemma ValidateTaskListValues(tasks: Value)
    requires ValidateTaskList(tasks).Ok?
    ensures forall i :: 0 <= i < |ValidateTaskList(tasks).value| ==>
      ValidateTask(tasks.items[i], i) == Ok(ValidateTaskList(tasks).value[i])
  {
    ValidateTaskListMaps(tasks);
    MapAllTake(tasks.items, ValidateTask, MAX_TASKS);
  }

  /** A list of at least three tasks is answered by the map over its first ten. */
  lemma ValidateTaskListMaps(tasks: Value)
    requires tasks.Arr? && |tasks.items| >= MIN_TASKS
    ensures ValidateTaskList(tasks) == MapAll(Take(tasks.items, MAX_TASKS), ValidateTask)
  {
  }

  /** Mapping over the first n elements succeeds exactly when the callback
      succeeds on each of them, and gives what the callback gives. */
  lemma MapAllTake<U, E>(xs: seq<Value>, f: (Value, nat) -> Result<U, E>, n: nat)
    ensures MapAll(Take(xs, n), f).Ok? <==> forall i :: 0 <= i < |xs| && i < n ==> f(xs[i], i).Ok?
    ensures MapAll(Take(xs, n), f).Ok? ==> forall i :: 0 <= i < |MapAll(Take(xs, n), f).value| ==>
      f(xs[i], i) == Ok(MapAll(Take(xs, n), f).value[i])
  {
    var raw := Take(xs, n);
    MapAllOkIff(raw, f);
    forall i | 0 <= i < |raw| ensures raw[i] == xs[i] {}
  }

  /** Every task that comes out of the map passed its checks. */
  lemma ValidatedTasksValid(raw: seq<Value>)
    ensures MapAll(raw, ValidateTask).Ok? ==> forall t :: t in MapAll(raw, ValidateTask).value ==> ValidTask(t)
  {
    var r := MapAll(raw, ValidateTask);
    if r.Ok? {
      forall t | t in r.value ensures ValidTask(t) {
        var i :| 0 <= i < |r.value| && r.value[i] == t;
        assert ValidateTask(raw[i], i).value == t;
      }
    }
  }

  /** Only the first ten tasks are looked at: whatever follows them can
      neither fail the request nor appear in it. */
  lemma ValidateTaskListTruncates(xs: seq<Value>)
    requires |xs| >= MAX_TASKS
    ensures ValidateTaskList(Arr(xs)) == ValidateTaskList(Arr(xs[..MAX_TASKS]))
  {
    assert Take(xs, MAX_TASKS) == Take(xs[..MAX_TASKS], MAX_TASKS);
  }

  /** handlePrioritize up to the call of the completion API: the validated
      request it would send, or the error response it gives instead. */
  function ValidatePrioritize(parsed: Option<Value>): (r: Result<PrioritizeRequest, Failure>)
    ensures r.Ok? ==> SafeText(r.value.name, 2, 60) && r.value.methodName == "impact_effort"
    ensures r.Ok? ==> MIN_TASKS <= |r.value.tasks| <= MAX_TASKS
    ensures r.Ok? ==> forall t :: t in r.value.tasks ==> ValidTask(t)
  {
    var body :- ReadJson(parsed);
    var name :- MustBeString("Seu nome", Field(body, "name"), true, 2, 60);
    var methodName :- MustBeString("Método", Field(body, "method"), true, 3, 40);
    if methodName != "impact_effort" then Rejected("Por enquanto, só o método Impacto e Esforço está liberado.")
    else
      var tasks :- ValidateTaskList(Field(body, "tasks"));
      Ok(PrioritizeRequest(name, methodName, tasks))
  }

  /** A body that is a JSON object or array, whose name passes, whose method
      passes and is "impact_effort" and whose task list passes is accepted,
      as the request made of the cleaned name and the validated tasks.
      With PrioritizeAcceptedChecks: accepted exactly when all checks pass. */
  lemma PrioritizeAllOk(parsed: Option<Value>)
    requires ReadJson(parsed).Ok?
    requires MustBeString("Seu nome", Field(parsed.value, "name"), true, 2, 60).Ok?
    requires MustBeString("Método", Field(parsed.value, "method"), true, 3, 40).Ok?
    requires MustBeString("Método", Field(parsed.value, "method"), true, 3, 40).value == "impact_effort"
    requires ValidateTaskList(Field(parsed.value, "tasks")).Ok?
    ensures ValidatePrioritize(parsed) == Ok(PrioritizeRequest(
      CleanValue(Field(parsed.value, "name")).value, "impact_effort", ValidateTaskList(Field(parsed.value, "tasks")).value))
  {
  }

  /** A body the handler accepts passed each of its checks: the converse of
      PrioritizeAllOk. */
  lemma PrioritizeAcceptedChecks(parsed: Option<Value>)
    requires ValidatePrioritize(parsed).Ok?
    ensures ReadJson(parsed).Ok?
    ensures MustBeString("Seu nome", Field(parsed.value, "name"), true, 2, 60).Ok?
    ensures MustBeString("Método", Field(parsed.value, "method"), true, 3, 40).Ok?
    ensures MustBeString("Método", Field(parsed.value, "method"), true, 3, 40).value == "impact_effort"
    ensures ValidateTaskList(Field(parsed.value, "tasks")).Ok?
  {
  }

  /** A body whose name and method pass their checks but whose method is not
      "impact_effort" is answered with 400, whatever its tasks. */
  lemma PrioritizeRejectsOtherMethods(parsed: Option<Value>)
    requires ReadJson(parsed).Ok?
    requires MustBeString("Seu nome", Field(parsed.value, "name"), true, 2, 60).Ok?
    requires MustBeString("Método", Field(parsed.value, "method"), true, 3, 40).Ok?
    requires MustBeString("Método", Field(parsed.value, "method"), true, 3, 40).value != "impact_effort"
    ensures ValidatePrioritize(parsed).Err? && ValidatePrioritize(parsed).error.status == 400
  {
  }

  // ---------------------------------------------------------------------
  // /calmai and /briefai
  // ---------------------------------------------------------------------

  datatype TextRequest = TextRequest(name: string, text: string)

  /** handleCalmai up to the call of the completion API. */
  function ValidateCalmai(parsed: Option<Value>): (r: Result<TextRequest, Failure>)
    ensures r.Ok? ==> SafeText(r.value.name, 2, 60) && SafeText(r.value.text, 10, 500)
    ensures r.Ok? <==> ReadJson(parsed).Ok?
                       && MustBeString("Seu nome", Field(parsed.value, "name"), true, 2, 60).Ok?
                       && MustBeString("Texto", Field(parsed.value, "text"), true, 10, 500).Ok?
    ensures r.Ok? ==> r.value == TextRequest(CleanValue(Field(parsed.value, "name")).value, CleanValue(Field(parsed.value, "text")).value)
  {
    var body :- ReadJson(parsed);
    var name :- MustBeString("Seu nome", Field(body, "name"), true, 2, 60);
    var text :- MustBeString("Texto", Field(body, "text"), true, 10, 500);
    Ok(TextRequest(name, text))
  }

  /** handleBriefai up to the call of the completion API. */
  function ValidateBriefai(parsed: Option<Value>): (r: Result<TextRequest, Failure>)
    ensures r.Ok? ==> SafeText(r.value.name, 2, 60) && SafeText(r.value.text, 20, 1500)
    ensures r.Ok? <==> ReadJson(parsed).Ok?
                       && MustBeString("Seu nome", Field(parsed.value, "name"), true, 2, 60).Ok?
                       && MustBeString("Seu texto", Field(parsed.value, "text"), true, 20, 1500).Ok?
    ensures r.Ok? ==> r.value == TextRequest(CleanValue(Field(parsed.value, "name")).value, CleanValue(Field(parsed.value, "text")).value)
  {
    var body :- ReadJson(parsed);
    var name :- MustBeString("Seu nome", Field(body, "name"), true, 2, 60);
    var text :- MustBeString("Seu texto", Field(body, "text"), true, 20, 1500);
    Ok(TextRequest(name, text))
  }

  /** A body whose name String() cannot convert (an object with its own
      "toString", or an array holding one) is answered with the TypeError by
      all three handlers, before anything else is checked. */
  lemma UnprintableNameRefused(parsed: Option<Value>)
    requires ReadJson(parsed).Ok?
    requires Unprintable(Field(parsed.value, "name"))
    ensures ValidateCalmai(parsed) == Err(Failure(500, TO_PRIMITIVE_ERROR))
    ensures ValidateBriefai(parsed) == Err(Failure(500, TO_PRIMITIVE_ERROR))
    ensures ValidatePrioritize(parsed) == Err(Failure(500, TO_PRIMITIVE_ERROR))
  {
  }

  /** {"toString": d}, for any number d, is such a value: mustBeString and
      mustBeInt throw on it, where "[object Object]" and NaN would have been
      their inputs otherwise. */
  lemma ToStringObjectRefused(name: string, d: Dec, required: bool, min: int, max: int)
    ensures MustBeString(name, Obj([(TO_STRING_KEY, Num(d))]), required, min, max)
         == Err(Failure(500, TO_PRIMITIVE_ERROR))
    ensures MustBeInt(name, Obj([(TO_STRING_KEY, Num(d))]), min, max)
         == Err(Failure(500, TO_PRIMITIVE_ERROR))
  {
    var v := Obj([(TO_STRING_KEY, Num(d))]);
    assert v.fields[0].0 == TO_STRING_KEY;
    assert Unprintable(v);
  }

  // ---------------------------------------------------------------------
  // removeQuestionMarksDeep
  // ---------------------------------------------------------------------

  /** The strip helper: cleanText, every "?" removed, trailing whitespace
      removed, trimmed. */
  function Strip(s: string): (r: string)
    ensures '?' !in r && Cleaned(r)
    ensures r == Trim(RemoveAll(RemoveAll(s, '\0'), '?'))
  {
    var t := TrimEnd(RemoveAll(CleanText(s), '?'));
    var u := RemoveAll(CleanText(s), '?');
    assert '\0' !in u by {
      assert multiset(u)['\0'] == multiset(CleanText(s))['\0'] == 0;
    }
    assert '\0' !in t && '?' !in t by {
      forall k | 0 <= k < |t| ensures t[k] != '\0' && t[k] != '?' {
        assert t[k] == u[k];
      }
    }
    TrimKeepsChars(t, '?');
    TrimKeepsChars(t, '\0');
    StripContent(s);
    Trim(t)
  }

  /** Removing "?" after cleaning and trimming the end before trimming give
      the same text as removing NUL and "?" from s and trimming once. */
  lemma StripContent(s: string)
    ensures Trim(TrimEnd(RemoveAll(CleanText(s), '?'))) == Trim(RemoveAll(RemoveAll(s, '\0'), '?'))
  {
    var t0 := RemoveAll(s, '\0');
    var c := CleanText(s);
    assert c == Trim(t0);
    TrimSpec(t0);
    var i: nat :| TrimmedFrom(t0, c, i);
    var a := t0[..i];
    var b := t0[i + |c|..];
    TrimmedFromSplit(t0, c, i);
    NotInSpace(a, '?');
    NotInSpace(b, '?');
    RemoveAllAppend(a + c, b, '?');
    RemoveAllAppend(a, c, '?');
    TrimPadded(a, RemoveAll(c, '?'), b);
    TrimOfTrimEnd(RemoveAll(c, '?'));
  }

  /** The key whose assignment `out[key] = ...` hands to the prototype setter
      of a plain object instead of creating an own property. */
  const PROTO_KEY := "__proto__"

  /** The entries of an object that `out[key] = ...` copies as own
      properties: all of them, in order, except a "__proto__" entry. */
  function OwnEntries(fields: seq<(string, Value)>): (r: seq<(string, Value)>)
    ensures forall p :: p in r <==> p in fields && p.0 != PROTO_KEY
  {
    if fields == [] then []
    else if fields[0].0 == PROTO_KEY then OwnEntries(fields[1..])
    else [fields[0]] + OwnEntries(fields[1..])
  }

  /** The filter keeps the order of the entries: filtering a concatenation
      concatenates the filtered parts. */
  lemma {:induction false} OwnEntriesAppend(a: seq<(string, Value)>, b: seq<(string, Value)>)
    ensures OwnEntries(a + b) == OwnEntries(a) + OwnEntries(b)
  {
    if a == [] {
      assert a + b == b;
    } else {
      OwnEntriesAppend(a[1..], b);
      assert a + b == [a[0]] + (a[1..] + b);
      OwnEntriesCons(a[0], a[1..] + b);
      assert a == [a[0]] + a[1..];
      OwnEntriesCons(a[0], a[1..]);
      ConcatAssoc(OwnEntry(a[0]), OwnEntries(a[1..]), OwnEntries(b));
    }
  }

  /** What the filter keeps of one entry. */
  function OwnEntry(p: (string, Value)): seq<(string, Value)> {
    if p.0 == PROTO_KEY then [] else [p]
  }

  lemma OwnEntriesCons(p: (string, Value), rest: seq<(string, Value)>)
    ensures OwnEntries([p] + rest) == OwnEntry(p) + OwnEntries(rest)
  {
    assert ([p] + rest)[0] == p && ([p] + rest)[1..] == rest;
  }

  lemma ConcatAssoc<T>(x: seq<T>, y: seq<T>, z: seq<T>)
    ensures x + (y + z) == (x + y) + z
  {
  }

  /** Without a "__proto__" entry every entry is copied. */
  lemma {:induction false} OwnEntriesAll(fields: seq<(string, Value)>)
    requires forall i :: 0 <= i < |fields| ==> fields[i].0 != PROTO_KEY
    ensures OwnEntries(fields) == fields
  {
    if fields != [] {
      OwnEntriesAll(fields[1..]);
      assert fields == [fields[0]] + fields[1..];
    }
  }

  /** Every string inside v is a fixed point of Strip (clean and free of "?"),
      and no object in it has a "__proto__" entry. */
  predicate Scrubbed(v: Value) {
    match v
    case Str(s) => '?' !in s && Cleaned(s)
    case Arr(items) => forall i :: 0 <= i < |items| ==> Scrubbed(items[i])
    case Obj(fields) => forall i :: 0 <= i < |fields| ==> fields[i].0 != PROTO_KEY && Scrubbed(fields[i].1)
    case _ => true
  }

  /** b is a copy of a in which every string s became Strip(s): arrays of the
      same length, objects with the same own keys in the same order (less a
      "__proto__" entry), and identical values everywhere else. */
  predicate StrippedCopy(a: Value, b: Value) {
    match a
    case Str(s) => b == Str(Strip(s))
    case Arr(xs) =>
      b.Arr? && |xs| == |b.items|
      && forall i :: 0 <= i < |xs| ==> StrippedCopy(xs[i], b.items[i])
    case Obj(fs) =>
      var own := OwnEntries(fs);
      b.Obj? && |own| == |b.fields|
      && forall i :: 0 <= i < |own| ==> own[i].0 == b.fields[i].0 && StrippedCopy(own[i].1, b.fields[i].1)
    case _ => a == b
  }

  /** removeQuestionMarksDeep: strips every string of a JSON tree. */
  function RemoveQuestionMarksDeep(v: Value): (r: Value)
    ensures StrippedCopy(v, r)
    ensures Scrubbed(r)
  {
    match v
    case Str(s) => Str(Strip(s))
    case Arr(items) =>
      Arr(seq(|items|, i requires 0 <= i < |items| => RemoveQuestionMarksDeep(items[i])))
    case Obj(fields) =>
      var own := OwnEntries(fields);
      Obj(seq(|own|, i requires 0 <= i < |own| =>
        (own[i].0, RemoveQuestionMarksDeep(own[i].1))))
    case _ => v
  }

  /** A string that is already clean and free of "?" is left alone. */
  lemma StripScrubbed(s: string)
    requires '?' !in s && Cleaned(s)
    ensures Strip(s) == s
  {
    CleanTextFixedPoint(s);
    var t := TrimEnd(s);
    assert t == s;
    TrimOfTrimmed(s);
  }

  /** A scrubbed tree is left alone. */
  lemma {:induction false} RemoveQuestionMarksDeepScrubbed(v: Value)
    requires Scrubbed(v)
    ensures RemoveQuestionMarksDeep(v) == v
  {
    match v
    case Str(s) => StripScrubbed(s);
    case Arr(items) =>
      forall i | 0 <= i < |items| ensures RemoveQuestionMarksDeep(items[i]) == items[i] {
        RemoveQuestionMarksDeepScrubbed(items[i]);
      }
      assert RemoveQuestionMarksDeep(v).items == items;
    case Obj(fields) =>
      OwnEntriesAll(fields);
      forall i | 0 <= i < |fields| ensures RemoveQuestionMarksDeep(fields[i].1) == fields[i].1 {
        RemoveQuestionMarksDeepScrubbed(fields[i].1);
      }
      assert RemoveQuestionMarksDeep(v).fields == fields;
    case _ =>
  }

  /** Applying removeQuestionMarksDeep twice gives what applying it once gives. */
  lemma RemoveQuestionMarksDeepIdempotent(v: Value)
    ensures RemoveQuestionMarksDeep(RemoveQuestionMarksDeep(v)) == RemoveQuestionMarksDeep(v)
  {
    RemoveQuestionMarksDeepScrubbed(RemoveQuestionMarksDeep(v));
  }
}
