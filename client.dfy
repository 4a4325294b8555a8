/** The browser client (docs/app.js): the Worker address, the scales the
    task form offers, the client's own copies of cleanText, looksLikeInjection
    and requireSafeText, the task-slot bookkeeping, and the collection of the
    /prioritize payload from the form. */
module Client {
  import opened Wrappers
  import opened Text
  import opened JsValue
  import Worker

  const WORKER_BASE_URL := "https://priorizai.felipelcas.workers.dev"
  const MAX_TASKS := 10
  const MIN_TASKS := 3

  /** An entry of a rating scale: the label shown and the value sent. */
  datatype ScaleEntry = ScaleEntry(caption: string, value: int)

  const IMPORTANCE: seq<ScaleEntry> := [
    ScaleEntry("Quase não importa", 1),
    ScaleEntry("Importa pouco", 2),
    ScaleEntry("Importa", 3),
    ScaleEntry("Importa muito", 4),
    ScaleEntry("É crítico, não dá para adiar", 5)
  ]

  const TIME_COST: seq<ScaleEntry> := [
    ScaleEntry("Menos de 10 min", 1),
    ScaleEntry("10 a 30 min", 2),
    ScaleEntry("30 min a 2 horas", 3),
    ScaleEntry("2 a 6 horas", 4),
    ScaleEntry("Mais de 6 horas", 5)
  ]

  // ---------------------------------------------------------------------
  // normalizeBaseUrl
  // ---------------------------------------------------------------------

  /** s starts with p, ignoring the case of ASCII letters (p is lower case). */
  predicate StartsWithIgnoringCase(s: string, p: string) {
    |p| <= |s| && Lower(s[..|p|]) == p
  }

  /** The regular expression /^https?:\/\//i. */
  predicate HasScheme(s: string) {
    StartsWithIgnoringCase(s, "http://") || StartsWithIgnoringCase(s, "https://")
  }

  /** A string with a scheme starts with an h or an H. */
  lemma HasSchemeStartsWithH(s: string)
    requires HasScheme(s)
    ensures |s| >= 7 && LowerChar(s[0]) == 'h'
  {
    if StartsWithIgnoringCase(s, "http://") {
      assert Lower(s[..7])[0] == 'h';
    } else {
      assert Lower(s[..8])[0] == 'h';
    }
  }

  /** replace(/\/+$/, ""): s without its run of trailing slashes. */
  function StripTrailingSlashes(s: string): (r: string)
    ensures |r| <= |s| && r == s[..|r|]
    ensures r == [] || r[|r| - 1] != '/'
    ensures forall i :: |r| <= i < |s| ==> s[i] == '/'
  {
    if |s| > 0 && s[|s| - 1] == '/' then StripTrailingSlashes(s[..|s| - 1]) else s
  }

  /** normalizeBaseUrl(url) for a string url. */
  function NormalizeBaseUrl(url: string): (r: string)
    ensures r == [] <==> AllSpace(url)
    ensures r == [] || r[|r| - 1] != '/'
  {
    var raw := Trim(url);
    TrimEmptyIffAllSpace(url);
    if raw == [] then []
    else
      var withProto := if HasScheme(raw) then raw else "https://" + raw;
      assert withProto[0] != '/' by {
        if HasScheme(raw) {
          HasSchemeStartsWithH(raw);
        }
      }
      StripTrailingSlashes(withProto)
  }

  /** An address that already names its scheme, in any letter case, gets no
      second one: only the surrounding whitespace and the trailing slashes go. */
  lemma NormalizeKeepsScheme(url: string)
    requires HasScheme(Trim(url))
    ensures NormalizeBaseUrl(url) == StripTrailingSlashes(Trim(url))
  {
  }

  /** Any other non-blank address is given "https://". */
  lemma NormalizeAddsScheme(url: string)
    requires !AllSpace(url) && !HasScheme(Trim(url))
    ensures NormalizeBaseUrl(url) == StripTrailingSlashes("https://" + Trim(url))
  {
    TrimEmptyIffAllSpace(url);
  }

  /** An address that is trimmed, has a scheme and does not end in a slash is
      left as it is. */
  lemma NormalizeOfNormal(url: string)
    requires Trimmed(url) && HasScheme(url) && url[|url| - 1] != '/'
    ensures NormalizeBaseUrl(url) == url
  {
    HasSchemeStartsWithH(url);
    TrimOfTrimmed(url);
  }

  /** The configured address is already normal, so BASE is that address and
      is not empty. */
  lemma BaseIsWorkerUrl()
    ensures NormalizeBaseUrl(WORKER_BASE_URL) == WORKER_BASE_URL != ""
  {
    var s := WORKER_BASE_URL;
    assert s[0] == 'h' && s[|s| - 1] == 'v';
    assert s[..8] == "https://";
    assert Lower(s[..8]) == "https://" by {
      forall k | 0 <= k < 8 ensures Lower(s[..8])[k] == "https://"[k] {
        assert s[..8][k] == "https://"[k];
      }
    }
    NormalizeOfNormal(s);
  }

  // ---------------------------------------------------------------------
  // looksLikeInjection and requireSafeText
  // ---------------------------------------------------------------------

  /** The client's SQL-injection list: the Worker's, plus ";--". */
  const CLIENT_SQLI_PATTERNS: seq<string> := Worker.SQLI_PATTERNS + [";--"]

  /** The client's looksLikeInjection on a string: the lower-cased text, not
      cleaned, contains one of the patterns. */
  predicate LooksLikeInjection(text: string)
    ensures LooksLikeInjection(text) ==> |text| >= 2
  {
    var t := Lower(text);
    Worker.PatternsAtLeastTwo();
    assert forall k :: 0 <= k < |CLIENT_SQLI_PATTERNS| ==> |CLIENT_SQLI_PATTERNS[k]| >= 2 by {
      forall k | 0 <= k < |CLIENT_SQLI_PATTERNS| ensures |CLIENT_SQLI_PATTERNS[k]| >= 2 {
        if k < |Worker.SQLI_PATTERNS| { assert CLIENT_SQLI_PATTERNS[k] == Worker.SQLI_PATTERNS[k]; }
      }
    }
    ContainsAnyLength(t, Worker.XSS_PATTERNS, 2);
    ContainsAnyLength(t, CLIENT_SQLI_PATTERNS, 2);
    ContainsAny(t, Worker.XSS_PATTERNS) || ContainsAny(t, CLIENT_SQLI_PATTERNS)
  }

  /** The client flags exactly the texts whose lower-cased form the Worker
      flags: the extra pattern ";--" can only occur where "--" occurs. */
  lemma LooksLikeInjectionAgrees(text: string)
    ensures LooksLikeInjection(text) <==> Worker.Flagged(Lower(text))
  {
    var t := Lower(text);
    ContainsAnyAppend(t, Worker.SQLI_PATTERNS, [";--"]);
    ContainsAnyIff(t, [";--"]);
    if Contains(t, ";--") {
      assert OccursAt(";--", "--", 1);
      ContainsIffOccurs(";--", "--");
      ContainsTransitive(t, ";--", "--");
      assert Worker.SQLI_PATTERNS[8] == "--";
      ContainsAnyIff(t, Worker.SQLI_PATTERNS);
    }
  }

  /** Within the bounds (in UTF-16 code units, as String.prototype.length
      counts) and not flagged by the client's looksLikeInjection. */
  predicate ClientSafe(s: string, min: int, max: int) {
    min <= Utf16Length(s) <= max && !LooksLikeInjection(s)
  }

  /** On clean text the client's check and the Worker's are the same. */
  lemma ClientSafeIsWorkerSafe(s: string, min: int, max: int)
    requires Cleaned(s)
    ensures ClientSafe(s, min, max) <==> Worker.SafeText(s, min, max)
  {
    LooksLikeInjectionAgrees(s);
  }

  /** requireSafeText(fieldName, value, { required, min, max }) on a string
      value; an error is the message of the Error it throws. */
  function RequireSafeText(fieldName: string, value: string, required: bool, min: int, max: int): (r: Result<string, string>)
    ensures r.Ok? <==> if CleanText(value) == "" then !required else ClientSafe(CleanText(value), min, max)
    ensures r.Ok? ==> r.value == CleanText(value)
  {
    var v := CleanText(value);
    if required && v == "" then Err("Preencha: " + fieldName + ".")
    else if !required && v == "" then Ok("")
    else if Utf16Length(v) < min then Err(fieldName + " está muito curto.")
    else if Utf16Length(v) > max then Err(fieldName + " passou do limite de caracteres.")
    else if LooksLikeInjection(v) then Err(fieldName + " parece ter conteúdo perigoso. Ajuste o texto e tente de novo.")
    else Ok(v)
  }

  /** requireSafeText cleans what it is given, so handing it text that was
      already cleaned, as the loop of collectPriorizaiPayload does, changes
      nothing. */
  lemma RequireSafeTextOfCleaned(fieldName: string, value: string, required: bool, min: int, max: int)
    ensures RequireSafeText(fieldName, CleanText(value), required, min, max)
         == RequireSafeText(fieldName, value, required, min, max)
  {
    CleanTextFixedPoint(value);
  }

  /** The client accepts a text exactly when the Worker's mustBeString with the
      same bounds does, and both keep the same cleaned text. */
  lemma RequireSafeTextAgrees(fieldName: string, value: string, required: bool, min: int, max: int)
    ensures RequireSafeText(fieldName, value, required, min, max).Ok?
        <==> Worker.MustBeString(fieldName, Str(value), required, min, max).Ok?
    ensures RequireSafeText(fieldName, value, required, min, max).Ok? ==>
        RequireSafeText(fieldName, value, required, min, max).value
        == Worker.MustBeString(fieldName, Str(value), required, min, max).value
  {
    var v := CleanText(value);
    assert Worker.CleanValue(Str(value)) == Ok(v);
    ClientSafeIsWorkerSafe(v, min, max);
  }

  // ---------------------------------------------------------------------
  // getLabelByValue
  // ---------------------------------------------------------------------

  /** getLabelByValue(arr, n): the label of the first entry whose value is n
      (=== on numbers, so NaN matches nothing), or "" when there is none.
      Number() of a number is that number, so n is taken as it comes. */
  function GetLabelByValue(table: seq<ScaleEntry>, n: Number): (r: string)
    ensures r == "" || exists i :: 0 <= i < |table| && EqualsInt(n, table[i].value) && r == table[i].caption
  {
    if table == [] then ""
    else if EqualsInt(n, table[0].value) then table[0].caption
    else
      var r := GetLabelByValue(table[1..], n);
      assert r != "" ==> exists i :: 0 <= i < |table| && EqualsInt(n, table[i].value) && r == table[i].caption by {
        if r != "" {
          var i :| 0 <= i < |table[1..]| && EqualsInt(n, table[1..][i].value) && r == table[1..][i].caption;
          assert table[i + 1] == table[1..][i];
        }
      }
      r
  }

  /** The label found is that of the first entry whose value is n, and there
      is no label when no entry has value n. */
  lemma {:induction false} GetLabelByValueFirstMatch(table: seq<ScaleEntry>, n: Number)
    ensures (exists i :: 0 <= i < |table| && EqualsInt(n, table[i].value)) ==>
      exists i :: 0 <= i < |table| && EqualsInt(n, table[i].value) && GetLabelByValue(table, n) == table[i].caption
        && forall j :: 0 <= j < i ==> !EqualsInt(n, table[j].value)
    ensures (forall i :: 0 <= i < |table| ==> !EqualsInt(n, table[i].value)) ==> GetLabelByValue(table, n) == ""
  {
    if table != [] && !EqualsInt(n, table[0].value) {
      var rest := table[1..];
      GetLabelByValueFirstMatch(rest, n);
      assert forall i :: 1 <= i < |table| ==> table[i] == rest[i - 1];
      if exists i :: 0 <= i < |table| && EqualsInt(n, table[i].value) {
        var k :| 0 <= k < |table| && EqualsInt(n, table[k].value);
        assert EqualsInt(n, rest[k - 1].value);
        var i :| 0 <= i < |rest| && EqualsInt(n, rest[i].value) && GetLabelByValue(rest, n) == rest[i].caption
                 && forall j :: 0 <= j < i ==> !EqualsInt(n, rest[j].value);
        assert EqualsInt(n, table[i + 1].value) && GetLabelByValue(table, n) == table[i + 1].caption;
      }
    }
  }

  /** Every value of both scales, 1 to 5, has its own non-empty label. */
  lemma ScalesLabelled(v: int)
    requires 1 <= v <= 5
    ensures GetLabelByValue(IMPORTANCE, Finite(Dec(v, 0))) == IMPORTANCE[v - 1].caption != ""
    ensures GetLabelByValue(TIME_COST, Finite(Dec(v, 0))) == TIME_COST[v - 1].caption != ""
  {
    var n := Finite(Dec(v, 0));
    forall i | 0 <= i < 5 ensures EqualsInt(n, IMPORTANCE[i].value) <==> i == v - 1 {}
    forall i | 0 <= i < 5 ensures EqualsInt(n, TIME_COST[i].value) <==> i == v - 1 {}
    GetLabelByValueFirstMatch(IMPORTANCE, n);
    GetLabelByValueFirstMatch(TIME_COST, n);
  }

  // ---------------------------------------------------------------------
  // collectPriorizaiPayload, over the values the form holds
  // ---------------------------------------------------------------------

  /** What the four inputs of task slot i hold (the select values are the
      strings of their chosen options). */
  datatype Slot = Slot(title: string, description: string, importance: string, timeCost: string)

  /** A task as the client sends it: the importance and time are Number()
      of the select values. */
  datatype ClientTask = ClientTask(
    title: string,
    description: string,
    importance: Number,
    time_cost: Number,
    importance_label: string,
    time_label: string)

  datatype Payload = Payload(name: string, methodName: string, tasks: seq<ClientTask>)

  /** What the loop does with one slot. */
  datatype SlotOutcome = Skip | Keep(task: ClientTask) | Fail(message: string)

  /** The inputs of slot i, 1-based, as the form holds them: None when one of
      its four elements is missing from the page. */
  function SlotAt(form: seq<Option<Slot>>, i: nat): Option<Slot> {
    if 1 <= i <= |form| then form[i - 1] else None
  }

  /** A slot whose title and description are both empty once cleaned. */
  predicate IsBlankSlot(s: Slot) {
    CleanText(s.title) == "" && CleanText(s.description) == ""
  }

  /** The title and description of a task are clean and pass the checks the
      loop applies to them. */
  predicate TaskTextSafe(t: ClientTask) {
    && Cleaned(t.title) && ClientSafe(t.title, 3, 80)
    && Cleaned(t.description) && ClientSafe(t.description, 10, 800)
  }

  /** The field name in the messages about slot i. */
  function SlotField(i: nat, what: string): string {
    "Tarefa " + NatToString(i) + " - " + what
  }

  /** One iteration of the loop of collectPriorizaiPayload, for slot i. */
  function ProcessSlot(slot: Option<Slot>, i: nat): (r: SlotOutcome)
    ensures r.Skip? <==> slot.None? || IsBlankSlot(slot.value)
    ensures r.Keep? ==> r.task.title == CleanText(slot.value.title) && r.task.description == CleanText(slot.value.description)
    ensures r.Keep? ==> TaskTextSafe(r.task)
  {
    match slot
    case None => Skip
    case Some(s) =>
      if IsBlankSlot(s) then Skip
      else
        match RequireSafeText(SlotField(i, "título"), s.title, true, 3, 80)
        case Err(m) => Fail(m)
        case Ok(title) =>
          match RequireSafeText(SlotField(i, "descrição"), s.description, true, 10, 800)
          case Err(m) => Fail(m)
          case Ok(description) =>
            var importance := StrToNumber(s.importance);
            var time_cost := StrToNumber(s.timeCost);
            Keep(ClientTask(title, description, importance, time_cost,
              GetLabelByValue(IMPORTANCE, importance), GetLabelByValue(TIME_COST, time_cost)))
  }

  /** A slot that is neither missing nor blank is kept exactly when its title
      and its description pass requireSafeText; otherwise the loop stops with
      the message of the first that fails. A kept task carries the numbers the
      selects hold and the labels of those numbers. */
  lemma ProcessSlotOutcome(slot: Option<Slot>, i: nat)
    ensures ProcessSlot(slot, i).Keep? <==>
      && slot.Some? && !IsBlankSlot(slot.value)
      && RequireSafeText(SlotField(i, "título"), slot.value.title, true, 3, 80).Ok?
      && RequireSafeText(SlotField(i, "descrição"), slot.value.description, true, 10, 800).Ok?
    ensures ProcessSlot(slot, i).Fail? ==>
      ProcessSlot(slot, i).message == (
        if RequireSafeText(SlotField(i, "título"), slot.value.title, true, 3, 80).Err?
        then RequireSafeText(SlotField(i, "título"), slot.value.title, true, 3, 80).error
        else RequireSafeText(SlotField(i, "descrição"), slot.value.description, true, 10, 800).error)
    ensures ProcessSlot(slot, i).Keep? ==>
      && ProcessSlot(slot, i).task.importance == StrToNumber(slot.value.importance)
      && ProcessSlot(slot, i).task.time_cost == StrToNumber(slot.value.timeCost)
      && ProcessSlot(slot, i).task.importance_label == GetLabelByValue(IMPORTANCE, ProcessSlot(slot, i).task.importance)
      && ProcessSlot(slot, i).task.time_label == GetLabelByValue(TIME_COST, ProcessSlot(slot, i).task.time_cost)
  {
  }

  /** A kept slot whose selects hold the option values String(a) and String(b)
      of two scale values a and b carries those numbers and their labels. */
  lemma KeptSlotScales(s: Slot, i: nat, a: int, b: int)
    requires ProcessSlot(Some(s), i).Keep?
    requires 1 <= a <= 5 && s.importance == NatToString(a)
    requires 1 <= b <= 5 && s.timeCost == NatToString(b)
    ensures EqualsInt(ProcessSlot(Some(s), i).task.importance, a)
    ensures EqualsInt(ProcessSlot(Some(s), i).task.time_cost, b)
    ensures ProcessSlot(Some(s), i).task.importance_label == IMPORTANCE[a - 1].caption
    ensures ProcessSlot(Some(s), i).task.time_label == TIME_COST[b - 1].caption
  {
    StrToNumberOfNatToString(a);
    StrToNumberOfNatToString(b);
    IntValueExact(Finite(Dec(a, 0)), a);
    IntValueExact(Finite(Dec(b, 0)), b);
    ScalesLabelled(a);
    ScalesLabelled(b);
  }

  /** The outcomes of slots 1..n in order, slot k giving step(SlotAt(form, k), k). */
  function Outcomes(form: seq<Option<Slot>>, n: nat, step: (Option<Slot>, nat) -> SlotOutcome): (r: seq<SlotOutcome>)
    ensures |r| == n
  {
    if n == 0 then [] else Outcomes(form, n - 1, step) + [step(SlotAt(form, n), n)]
  }

  /** Entry k of the outcomes is that of slot k + 1, however many slots
      follow it. */
  lemma {:induction false} OutcomesAt(form: seq<Option<Slot>>, n: nat, step: (Option<Slot>, nat) -> SlotOutcome, k: nat)
    requires k < n
    ensures Outcomes(form, n, step)[k] == step(SlotAt(form, k + 1), k + 1)
  {
    if k < n - 1 {
      OutcomesAt(form, n - 1, step, k);
    }
  }

  /** The outcomes of the first m slots do not depend on the slots after them. */
  lemma {:induction false} OutcomesPrefix(form: seq<Option<Slot>>, m: nat, n: nat, step: (Option<Slot>, nat) -> SlotOutcome)
    requires m <= n
    ensures Outcomes(form, n, step)[..m] == Outcomes(form, m, step)
    decreases n
  {
    if m < n {
      OutcomesPrefix(form, m, n - 1, step);
      assert Outcomes(form, n, step)[..n - 1] == Outcomes(form, n - 1, step);
      assert Outcomes(form, n, step)[..m] == Outcomes(form, n, step)[..n - 1][..m];
    }
  }

  /** Two forms whose slots all give the same outcome give the same outcomes. */
  lemma {:induction false} OutcomesAgree(f: seq<Option<Slot>>, g: seq<Option<Slot>>, n: nat, step: (Option<Slot>, nat) -> SlotOutcome)
    requires forall k :: 1 <= k <= n ==> step(SlotAt(f, k), k) == step(SlotAt(g, k), k)
    ensures Outcomes(f, n, step) == Outcomes(g, n, step)
  {
    if n > 0 {
      OutcomesAgree(f, g, n - 1, step);
    }
  }

  /** The positions of the outcomes that are not Skip, in increasing order. */
  function Filled(outs: seq<SlotOutcome>): (r: seq<nat>)
    ensures |r| <= |outs|
    ensures forall k :: 0 <= k < |r| ==> r[k] < |outs| && !outs[r[k]].Skip?
    ensures forall k, l :: 0 <= k < l < |r| ==> r[k] < r[l]
    ensures forall j :: 0 <= j < |outs| && !outs[j].Skip? ==> j in r
  {
    if outs == [] then []
    else
      var n := |outs| - 1;
      var p := Filled(outs[..n]);
      if outs[n].Skip? then p else p + [n]
  }

  /** The tasks the loop has pushed after the given outcomes, or the message
      of the first Error thrown. */
  function CollectTasks(outs: seq<SlotOutcome>): (r: Result<seq<ClientTask>, string>)
    ensures r.Ok? ==> |r.value| == |Filled(outs)|
    ensures r.Ok? ==> forall k :: 0 <= k < |r.value| ==> outs[Filled(outs)[k]] == Keep(r.value[k])
  {
    if outs == [] then Ok([])
    else
      var n := |outs| - 1;
      assert outs[..n][..n] == outs[..n];
      match CollectTasks(outs[..n])
      case Err(m) => Err(m)
      case Ok(done) =>
        match outs[n]
        case Skip => Ok(done)
        case Fail(m) => Err(m)
        case Keep(t) => Ok(done + [t])
  }

  /** None of the first j outcomes is a Fail. */
  predicate NoFailBefore(outs: seq<SlotOutcome>, j: int) {
    forall i :: 0 <= i < j && i < |outs| ==> !outs[i].Fail?
  }

  /** Once a slot has thrown, the later slots change nothing. */
  lemma {:induction false} CollectTasksErrorSticks(outs: seq<SlotOutcome>, m: nat)
    requires m <= |outs| && CollectTasks(outs[..m]).Err?
    ensures CollectTasks(outs) == CollectTasks(outs[..m])
    decreases |outs| - m
  {
    if m < |outs| {
      var n := |outs| - 1;
      assert outs[..n][..m] == outs[..m];
      CollectTasksErrorSticks(outs[..n], m);
      assert CollectTasks(outs[..n]).Err?;
    } else {
      assert outs[..m] == outs;
    }
  }

  /** The loop gets through the slots exactly when none of them throws. */
  lemma {:induction false} CollectTasksSucceeds(outs: seq<SlotOutcome>)
    ensures CollectTasks(outs).Ok? <==> NoFailBefore(outs, |outs|)
  {
    if outs != [] {
      var n := |outs| - 1;
      var p := outs[..n];
      CollectTasksSucceeds(p);
      assert NoFailBefore(p, n) <==> NoFailBefore(outs, n) by {
        assert forall i :: 0 <= i < n ==> p[i] == outs[i];
      }
    }
  }

  /** An error is the message of the first slot that throws; every slot
      before it was skipped or kept. */
  lemma {:induction false} CollectTasksFirstError(outs: seq<SlotOutcome>)
    requires CollectTasks(outs).Err?
    ensures exists j :: 0 <= j < |outs| && outs[j] == Fail(CollectTasks(outs).error) && NoFailBefore(outs, j)
  {
    var n := |outs| - 1;
    var p := outs[..n];
    if CollectTasks(p).Err? {
      CollectTasksFirstError(p);
      var j :| 0 <= j < n && p[j] == Fail(CollectTasks(p).error) && NoFailBefore(p, j);
      assert CollectTasks(outs) == CollectTasks(p);
      assert outs[j] == p[j];
      assert NoFailBefore(outs, j) by {
        forall i | 0 <= i < j ensures !outs[i].Fail? {
          assert outs[i] == p[i];
        }
      }
    } else {
      CollectTasksSucceeds(p);
      assert outs[n] == Fail(CollectTasks(outs).error);
      assert NoFailBefore(outs, n) by {
        forall i | 0 <= i < n ensures !outs[i].Fail? {
          assert outs[i] == p[i];
        }
      }
    }
  }

  /** A kept task's title and description pass the Worker's own checks. */
  lemma KeptTaskPassesWorker(t: ClientTask)
    requires TaskTextSafe(t)
    ensures Worker.SafeText(t.title, 3, 80) && Worker.SafeText(t.description, 10, 800)
  {
    ClientSafeIsWorkerSafe(t.title, 3, 80);
    ClientSafeIsWorkerSafe(t.description, 10, 800);
  }

  /** One more slot: the loop goes on with the tasks it had, one more task,
      or the Error of that slot. */
  lemma CollectTasksStep(form: seq<Option<Slot>>, i: nat, step: (Option<Slot>, nat) -> SlotOutcome, tasks: seq<ClientTask>)
    requires 1 <= i && CollectTasks(Outcomes(form, i - 1, step)) == Ok(tasks)
    ensures step(SlotAt(form, i), i).Skip? ==> CollectTasks(Outcomes(form, i, step)) == Ok(tasks)
    ensures step(SlotAt(form, i), i).Keep? ==> CollectTasks(Outcomes(form, i, step)) == Ok(tasks + [step(SlotAt(form, i), i).task])
    ensures step(SlotAt(form, i), i).Fail? ==> CollectTasks(Outcomes(form, i, step)) == Err(step(SlotAt(form, i), i).message)
  {
    assert Outcomes(form, i, step)[..i - 1] == Outcomes(form, i - 1, step);
  }

  /** After the first Error the outcome of the remaining slots is irrelevant. */
  lemma CollectTasksStops(form: seq<Option<Slot>>, i: nat, n: nat, step: (Option<Slot>, nat) -> SlotOutcome)
    requires i <= n && CollectTasks(Outcomes(form, i, step)).Err?
    ensures CollectTasks(Outcomes(form, n, step)) == CollectTasks(Outcomes(form, i, step))
  {
    OutcomesPrefix(form, i, n, step);
    CollectTasksErrorSticks(Outcomes(form, n, step), i);
  }

  /** Every kept task of a list of outcomes whose kept tasks are safe passes
      the Worker's checks. */
  lemma CollectedTasksPassWorker(outs: seq<SlotOutcome>)
    requires forall k :: 0 <= k < |outs| && outs[k].Keep? ==> TaskTextSafe(outs[k].task)
    requires CollectTasks(outs).Ok?
    ensures forall t :: t in CollectTasks(outs).value ==>
      Worker.SafeText(t.title, 3, 80) && Worker.SafeText(t.description, 10, 800)
  {
    var tasks := CollectTasks(outs).value;
    forall t | t in tasks ensures Worker.SafeText(t.title, 3, 80) && Worker.SafeText(t.description, 10, 800) {
      var k :| 0 <= k < |tasks| && tasks[k] == t;
      assert outs[Filled(outs)[k]] == Keep(t);
      KeptTaskPassesWorker(t);
    }
  }

  const NOT_ENOUGH_TASKS := "Preencha no mínimo 3 tarefas completas (título e descrição)."
  const NO_BASE := "WORKER_BASE_URL está vazio. Configure a URL do seu Worker no app.js."

  /** collectPriorizaiPayload for the name typed, the form, the number of
      slots and the Worker address. */
  function CollectPayload(userName: string, form: seq<Option<Slot>>, taskCount: nat, base: string): (r: Result<Payload, string>)
    ensures r.Ok? ==> r.value.name == CleanText(userName) && ClientSafe(r.value.name, 2, 60)
    ensures r.Ok? ==> r.value.methodName == "impact_effort"
    ensures r.Ok? ==> MIN_TASKS <= |r.value.tasks| <= taskCount && base != ""
    ensures r.Ok? ==> CollectTasks(Outcomes(form, taskCount, ProcessSlot)) == Ok(r.value.tasks)
  {
    var name :- RequireSafeText("Seu nome", userName, true, 2, 60);
    var tasks :- CollectTasks(Outcomes(form, taskCount, ProcessSlot));
    if |tasks| < MIN_TASKS then Err(NOT_ENOUGH_TASKS)
    else if base == "" then Err(NO_BASE)
    else Ok(Payload(name, "impact_effort", tasks))
  }

  /** What collectPriorizaiPayload returns once the name is accepted and the
      loop over the slots has produced its tasks. */
  lemma CollectPayloadAfterLoop(userName: string, form: seq<Option<Slot>>, taskCount: nat, base: string, tasks: seq<ClientTask>)
    requires RequireSafeText("Seu nome", userName, true, 2, 60).Ok?
    requires CollectTasks(Outcomes(form, taskCount, ProcessSlot)) == Ok(tasks)
    ensures CollectPayload(userName, form, taskCount, base) ==
      if |tasks| < MIN_TASKS then Err(NOT_ENOUGH_TASKS)
      else if base == "" then Err(NO_BASE)
      else Ok(Payload(RequireSafeText("Seu nome", userName, true, 2, 60).value, "impact_effort", tasks))
  {
  }

  /** Every task the loop keeps is safe. */
  lemma KeptTasksSafe(form: seq<Option<Slot>>, n: nat)
    ensures forall k :: 0 <= k < n && Outcomes(form, n, ProcessSlot)[k].Keep? ==>
      TaskTextSafe(Outcomes(form, n, ProcessSlot)[k].task)
  {
    forall k | 0 <= k < n && Outcomes(form, n, ProcessSlot)[k].Keep?
      ensures TaskTextSafe(Outcomes(form, n, ProcessSlot)[k].task)
    {
      OutcomesAt(form, n, ProcessSlot, k);
    }
  }

  /** Everything in an accepted payload that the Worker checks as text passes
      those checks: the name and every title and description. */
  lemma PayloadPassesWorkerText(userName: string, form: seq<Option<Slot>>, taskCount: nat, base: string)
    requires CollectPayload(userName, form, taskCount, base).Ok?
    ensures Worker.SafeText(CollectPayload(userName, form, taskCount, base).value.name, 2, 60)
    ensures forall t :: t in CollectPayload(userName, form, taskCount, base).value.tasks ==>
      Worker.SafeText(t.title, 3, 80) && Worker.SafeText(t.description, 10, 800)
  {
    var p := CollectPayload(userName, form, taskCount, base).value;
    ClientSafeIsWorkerSafe(p.name, 2, 60);
    KeptTasksSafe(form, taskCount);
    CollectedTasksPassWorker(Outcomes(form, taskCount, ProcessSlot));
  }

  /** A blank slot contributes nothing, whatever its selects hold: the form
      gives the same outcomes as with that slot missing. */
  lemma BlankSlotIgnored(form: seq<Option<Slot>>, i: nat, s: Slot, n: nat)
    requires 1 <= i <= |form| && IsBlankSlot(s)
    ensures Outcomes(form[i - 1 := Some(s)], n, ProcessSlot) == Outcomes(form[i - 1 := None], n, ProcessSlot)
  {
    var f := form[i - 1 := Some(s)];
    var g := form[i - 1 := None];
    forall k | 1 <= k <= n ensures ProcessSlot(SlotAt(f, k), k) == ProcessSlot(SlotAt(g, k), k) {
      if k != i {
        assert SlotAt(f, k) == SlotAt(g, k);
      }
    }
    OutcomesAgree(f, g, n, ProcessSlot);
  }

  /** Fewer than three kept tasks, or no Worker address, and the payload is
      refused; the name is checked before anything else. */
  lemma CollectPayloadErrors(userName: string, form: seq<Option<Slot>>, taskCount: nat, base: string)
    ensures RequireSafeText("Seu nome", userName, true, 2, 60).Err? ==>
      CollectPayload(userName, form, taskCount, base) == Err(RequireSafeText("Seu nome", userName, true, 2, 60).error)
    ensures (RequireSafeText("Seu nome", userName, true, 2, 60).Ok? && CollectTasks(Outcomes(form, taskCount, ProcessSlot)).Ok?
             && |CollectTasks(Outcomes(form, taskCount, ProcessSlot)).value| < MIN_TASKS) ==>
      CollectPayload(userName, form, taskCount, base) == Err(NOT_ENOUGH_TASKS)
    ensures (RequireSafeText("Seu nome", userName, true, 2, 60).Ok? && CollectTasks(Outcomes(form, taskCount, ProcessSlot)).Err?) ==>
      CollectPayload(userName, form, taskCount, base) == Err(CollectTasks(Outcomes(form, taskCount, ProcessSlot)).error)
    ensures base == "" ==> CollectPayload(userName, form, taskCount, base).Err?
  {
  }

  /** The loop of collectPriorizaiPayload over slots 1..n: step gives the
      outcome of each slot in turn; a kept task is pushed, a skipped slot is
      passed over, and the first Error ends the loop. */
  method CollectSlots(form: seq<Option<Slot>>, n: nat, step: (Option<Slot>, nat) -> SlotOutcome) returns (r: Result<seq<ClientTask>, string>)
    ensures r == CollectTasks(Outcomes(form, n, step))
  {
    var tasks: seq<ClientTask> := [];
    var i := 1;
    while i <= n
      invariant 1 <= i <= n + 1
      invariant CollectTasks(Outcomes(form, i - 1, step)) == Ok(tasks)
    {
      var outcome := step(SlotAt(form, i), i);
      CollectTasksStep(form, i, step, tasks);
      match outcome {
        case Skip =>
        case Keep(t) =>
          tasks := tasks + [t];
        case Fail(m) =>
          CollectTasksStops(form, i, n, step);
          return Err(m);
      }
      i := i + 1;
    }
    return Ok(tasks);
  }

  // ---------------------------------------------------------------------
  // The task form: taskCount and its slots
  // ---------------------------------------------------------------------

  /** The task list of the page: taskCount and the indexes of the slots in
      the container, in the order they were appended. */
  class TaskForm {
    var taskCount: nat
    var slots: seq<nat>

    /** The slots are 1..taskCount, in order, and there are at most ten. */
    ghost predicate Valid()
      reads this
    {
      && taskCount <= MAX_TASKS
      && |slots| == taskCount
      && forall k :: 0 <= k < |slots| ==> slots[k] == k + 1
    }

    /** The page as loaded: taskCount = 0 and an empty container. */
    constructor()
      ensures Valid() && taskCount == 0
    {
      taskCount := 0;
      slots := [];
    }

    /** ensureInitialTasks: empties the container and appends MIN_TASKS slots. */
    method EnsureInitialTasks()
      modifies this
      ensures Valid()
      ensures taskCount == MIN_TASKS && slots == [1, 2, 3]
    {
      slots := [];
      taskCount := 0;
      var i := 1;
      while i <= MIN_TASKS
        invariant 1 <= i <= MIN_TASKS + 1
        invariant taskCount == i - 1
        invariant |slots| == taskCount && forall k :: 0 <= k < |slots| ==> slots[k] == k + 1
      {
        taskCount := taskCount + 1;
        slots := slots + [taskCount];
        i := i + 1;
      }
    }

    /** addTask: one more slot, unless there are MAX_TASKS already. */
    method AddTask()
      requires Valid()
      modifies this
      ensures Valid()
      ensures old(taskCount) >= MAX_TASKS ==> taskCount == old(taskCount) && slots == old(slots)
      ensures old(taskCount) < MAX_TASKS ==> taskCount == old(taskCount) + 1 && slots == old(slots) + [taskCount]
    {
      if taskCount >= MAX_TASKS {
        return;
      }
      taskCount := taskCount + 1;
      slots := slots + [taskCount];
    }

    /** collectPriorizaiPayload: the name first, then the loop over the slots,
        then the count of tasks and the Worker address. */
    method CollectPriorizaiPayload(userName: string, form: seq<Option<Slot>>, base: string) returns (r: Result<Payload, string>)
      ensures r == CollectPayload(userName, form, taskCount, base)
    {
      var name := RequireSafeText("Seu nome", userName, true, 2, 60);
      if name.Err? {
        return Err(name.error);
      }
      var collected := CollectSlots(form, taskCount, ProcessSlot);
      if collected.Err? {
        return Err(collected.error);
      }
      var tasks := collected.value;
      CollectPayloadAfterLoop(userName, form, taskCount, base, tasks);
      if |tasks| < MIN_TASKS {
        return Err(NOT_ENOUGH_TASKS);
      }
      if base == "" {
        return Err(NO_BASE);
      }
      return Ok(Payload(name.value, "impact_effort", tasks));
    }
  }
}
