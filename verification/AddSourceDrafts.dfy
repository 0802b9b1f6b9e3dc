/** Which drafts an add makes sources of, in which order and under which titles. */
module AddSourceDrafts {
  import opened NaturalOrder
  import opened Orders
  import opened Schema
  import opened SharedQuestions
  import opened AddSource

  // ── Drafts of one input ─────────────────────────────────────────────

  /** Whether these are the drafts of an input: made by its kind's handler, under the answers
      given, of what its reader reads under them, with the title given in place of its own. */
  ghost predicate AreDraftsOf(
    intake: Intake, input: Input, title: Option<string>, answers: Answers, drafts: seq<Draft>)
  {
    exists checked, content ::
      && intake.check(input) == Got(checked)
      && intake.read(checked, answers) == Got(content)
      && drafts == intake.drafts(if title.Some? then Content(title, content.body) else content, answers)
  }

  lemma DraftsAreOfTheContent(
    intake: Intake, input: Input, title: Option<string>, answers: Answers, drafts: seq<Draft>)
    requires ReadInput(intake, input, title, answers) == Ok(Drafted(drafts))
    ensures AreDraftsOf(intake, input, title, answers, drafts)
  {
    var checked := intake.check(input).value;
    var content := intake.read(checked, answers).value;
    assert drafts == intake.drafts(if title.Some? then Content(title, content.body) else content, answers);
  }

  // ── The drafts of all ───────────────────────────────────────────────

  /** Inputs in the order of their names; of equal names, in the order they were given in. */
  ghost predicate IsOrder(request: Request, order: seq<nat>) {
    && |order| == |request.inputs|
    && (forall k | 0 <= k < |order| :: order[k] < |request.inputs|)
    && (forall j, k | 0 <= j < k < |order| :: order[j] != order[k])
    && (forall j, k | 0 <= j < k < |order| ::
          var a, b := request.inputs[order[j]].0, request.inputs[order[k]].0;
          NaturallyBefore(a, b) || (!NaturallyBefore(b, a) && order[j] < order[k]))
  }

  /** The part of a list between two of its offsets. */
  function PartAt(drafts: seq<Draft>, at: seq<nat>, k: nat): seq<Draft>
    requires IsOffset(drafts, at, k)
  {
    drafts[at[k]..at[k + 1]]
  }

  predicate IsOffset(drafts: seq<Draft>, at: seq<nat>, k: nat) {
    k + 1 < |at| && at[k] <= at[k + 1] <= |drafts|
  }

  /** The drafts of every input stand whole, one input after another, and there are no others;
      `at` says where those of each input start, and last where all end. */
  ghost predicate StandWhole(
    intake: Intake, request: Request, answers: seq<Answers>, order: seq<nat>, at: seq<nat>, drafts: seq<Draft>)
    requires IsOrder(request, order)
  {
    && |at| == |order| + 1 && at[0] == 0 && at[|order|] == |drafts|
    && forall k | 0 <= k < |order| ::
         && IsOffset(drafts, at, k)
         && AreDraftsOf(
              intake, request.inputs[order[k]].1, if |request.inputs| > 1 then None else request.title,
              GivenAt(answers, order[k]), PartAt(drafts, at, k))
  }

  ghost predicate AreAllDrafts(intake: Intake, request: Request, answers: seq<Answers>, drafts: seq<Draft>) {
    exists order, at :: IsOrder(request, order) && StandWhole(intake, request, answers, order, at, drafts)
  }

  lemma {:induction false} DraftsStand(inputs: seq<NamedRead>) returns (at: seq<nat>)
    requires forall k | 0 <= k < |inputs| :: inputs[k].read.Drafted?
    ensures |at| == |inputs| + 1 && at[0] == 0 && at[|inputs|] == |DraftsOf(inputs)|
    ensures forall k | 0 <= k < |inputs| ::
              IsOffset(DraftsOf(inputs), at, k) && PartAt(DraftsOf(inputs), at, k) == inputs[k].read.drafts
  {
    if inputs == [] {
      at := [0];
    } else {
      var first := inputs[0].read.drafts;
      var rest := DraftsStand(inputs[1..]);
      var drafts := DraftsOf(inputs);
      at := [0] + seq(|rest|, k requires 0 <= k < |rest| => |first| + rest[k]);
      forall k | 0 <= k < |inputs|
        ensures IsOffset(drafts, at, k) && PartAt(drafts, at, k) == inputs[k].read.drafts
      {
        if k > 0 {
          assert inputs[1..][k - 1] == inputs[k];
          assert IsOffset(DraftsOf(inputs[1..]), rest, k - 1);
          assert PartAt(drafts, at, k) == PartAt(DraftsOf(inputs[1..]), rest, k - 1);
        }
      }
    }
  }

  lemma NamesAreWeakOrder()
    ensures IsWeakOrder(NamedBefore)
  {
    NaturalIsWeakOrder();
    hide NaturallyBefore;
  }

  /** Sorted by name, the inputs are the same, and those of equal names stay as they were. */
  lemma SortedByName(request: Request, readings: seq<Read>)
    requires |readings| == |request.inputs|
    ensures var given, named := NamedReads(request, readings), InOrder(request, readings);
            && |named| == |given|
            && (forall k | 0 <= k < |named| :: named[k].input < |given| && named[k] == given[named[k].input])
            && forall j, k | 0 <= j < k < |named| ::
                 NamedBefore(named[j], named[k])
                 || (!NamedBefore(named[k], named[j]) && named[j].input < named[k].input)
  {
    var given, named := NamedReads(request, readings), InOrder(request, readings);
    var byInput := (a: NamedRead, b: NamedRead) => a.input < b.input;
    assert SortedBy(given, byInput);
    NamesAreWeakOrder();
    hide NaturallyBefore, NamedBefore, IsWeakOrder, StableSort;
    if IsBatch(request) {
      StableSortRefines(given, NamedBefore, byInput);
      SameLength(named, given);
      forall k | 0 <= k < |named|
        ensures named[k].input < |given| && named[k] == given[named[k].input]
      {
        assert named[k] in multiset(named) && named[k] in multiset(given);
        var i :| 0 <= i < |given| && given[i] == named[k];
      }
      forall j, k | 0 <= j < k < |named|
        ensures NamedBefore(named[j], named[k])
                || (!NamedBefore(named[k], named[j]) && named[j].input < named[k].input)
      {
        assert Then(NamedBefore, byInput)(named[j], named[k]);
      }
    }
  }

  lemma SameLength<T>(a: seq<T>, b: seq<T>)
    requires multiset(a) == multiset(b)
    ensures |a| == |b|
  {
    assert |multiset(a)| == |a| && |multiset(b)| == |b|;
  }

  /** The inputs in order are all of them, each once. */
  lemma InOrderIs(request: Request, readings: seq<Read>) returns (order: seq<nat>)
    requires |readings| == |request.inputs|
    ensures IsOrder(request, order) && |InOrder(request, readings)| == |order|
    ensures forall k | 0 <= k < |order| :: InOrder(request, readings)[k].read == readings[order[k]]
  {
    var named := InOrder(request, readings);
    SortedByName(request, readings);
    NamesAreWeakOrder();
    hide NaturallyBefore, InOrder;
    order := seq(|named|, k requires 0 <= k < |named| => named[k].input);
    forall j, k | 0 <= j < k < |order|
      ensures order[j] != order[k]
      ensures var a, b := request.inputs[order[j]].0, request.inputs[order[k]].0;
              NaturallyBefore(a, b) || (!NaturallyBefore(b, a) && order[j] < order[k])
    {
      assert NamedBefore(named[j], named[k]) ==> !NamedBefore(named[k], named[j]);
    }
  }

  // ── Nothing is left out ─────────────────────────────────────────────

  lemma {:induction false} NothingAsked(request: Request, readings: seq<Read>, n: nat)
    requires n <= |readings| <= |request.inputs| && PendingOf(request, readings, n) == []
    ensures forall i | 0 <= i < n && readings[i].Asking? :: readings[i].questions == []
  {
    if n > 0 {
      NothingAsked(request, readings, n - 1);
      var last := readings[n - 1];
      if last.Asking? {
        assert |AskedBy(request, last.questions, n - 1)| == |last.questions|;
      }
    }
  }

  lemma AskingAsksSomething(intake: Intake, input: Input, title: Option<string>, answers: Answers)
    ensures var result := ReadInput(intake, input, title, answers);
            result.Ok? && result.value.Asking? ==> result.value.questions != []
  {
  }

  /** A call that makes sources or asks a naming has read every input to its drafts. */
  lemma AllDrafted(intake: Intake, request: Request, call: Call) returns (readings: seq<Read>)
    requires IsReply(intake, request, call.answers, call.naming, call.reply)
    requires call.reply.SourcesCreated? || call.reply.NamingRequired?
    ensures |readings| == |request.inputs| && call.reply.drafts == DraftsOf(InOrder(request, readings))
    ensures forall i | 0 <= i < |readings| ::
              readings[i].Drafted? && ReadOne(intake, request, call.answers, i) == Ok(readings[i])
  {
    var n := |request.inputs|;
    ReadsAll(intake, request, call.answers, n);
    readings := ReadAll(intake, request, call.answers, n).value;
    NothingAsked(request, readings, n);
    hide ReadInput, InOrder, DraftsOf, TitlesOf;
    forall i | 0 <= i < n
      ensures readings[i].Drafted?
    {
      assert ReadOne(intake, request, call.answers, i) == Ok(readings[i]);
      AskingAsksSomething(
        intake, request.inputs[i].1, if IsBatch(request) then None else request.title, GivenAt(call.answers, i));
    }
  }

  /** Whatever sources a call makes, or asks a naming for, are all drafts of all inputs, each
      once: those of an input together, the inputs by their names. */
  lemma DraftsAreOfAllInputs(intake: Intake, request: Request, was: seq<Write>, call: Call)
    requires IsCall(intake, request, was, call) && (call.reply.SourcesCreated? || call.reply.NamingRequired?)
    ensures AreAllDrafts(intake, request, call.answers, call.reply.drafts)
  {
    hide IsReply;
    var readings := AllDrafted(intake, request, call);
    var order := InOrderIs(request, readings);
    hide InOrder, IsOrder, AreDraftsOf, ReadInput;
    var at := DraftsStand(InOrder(request, readings));
    forall k | 0 <= k < |order|
      ensures order[k] < |request.inputs| && IsOffset(call.reply.drafts, at, k)
      ensures AreDraftsOf(
                intake, request.inputs[order[k]].1, if |request.inputs| > 1 then None else request.title,
                GivenAt(call.answers, order[k]), PartAt(call.reply.drafts, at, k))
    {
      OrderIsOfInputs(request, order, k);
      var i := order[k];
      assert readings[i].Drafted? && ReadOne(intake, request, call.answers, i) == Ok(readings[i]);
      DraftsOfInput(intake, request, call.answers, i, readings[i].drafts);
    }
    assert StandWhole(intake, request, call.answers, order, at, call.reply.drafts);
  }

  lemma OrderIsOfInputs(request: Request, order: seq<nat>, k: nat)
    requires IsOrder(request, order) && k < |order|
    ensures order[k] < |request.inputs|
  {
  }

  lemma DraftsOfInput(intake: Intake, request: Request, answers: seq<Answers>, i: nat, drafts: seq<Draft>)
    requires i < |request.inputs| && ReadOne(intake, request, answers, i) == Ok(Drafted(drafts))
    ensures AreDraftsOf(
              intake, request.inputs[i].1, if |request.inputs| > 1 then None else request.title,
              GivenAt(answers, i), drafts)
  {
    hide ReadInput, AreDraftsOf;
    DraftsAreOfTheContent(
      intake, request.inputs[i].1, if |request.inputs| > 1 then None else request.title, GivenAt(answers, i), drafts);
  }

  // ── Titles ──────────────────────────────────────────────────────────

  /** Every draft has the title written by hand for it, or if there is none the one the rule
      makes of its number among all. */
  ghost predicate AreTitlesBy(naming: Naming, drafts: seq<Draft>, titles: seq<string>) {
    && |titles| == |drafts|
    && forall i: nat | i < |drafts| ::
         titles[i] == if i in naming.titles && naming.titles[i] != "" then naming.titles[i]
                      else naming.render(|drafts|, i + 1, drafts[i].ownTitle)
  }

  lemma TitlesAre(naming: Naming, drafts: seq<Draft>)
    ensures AreTitlesBy(naming, drafts, TitlesOf(naming, drafts))
  {
  }

  /** One draft is a source under its own title. Several need a naming, and are written once,
      under its titles. */
  lemma TitlesAreTheNaming(intake: Intake, request: Request, was: seq<Write>, call: Call)
    requires IsCall(intake, request, was, call) && (call.reply.SourcesCreated? || call.reply.NamingRequired?)
    ensures call.reply.NamingRequired? ==>
              |call.reply.drafts| != 1 && call.naming.None? && call.written == was
    ensures call.reply.SourcesCreated? ==>
              && call.written == was + [Write(call.reply.drafts, call.reply.titles)]
              && (call.reply.titles.None? <==> |call.reply.drafts| == 1)
              && (call.reply.titles.Some? ==>
                    && call.naming.Some?
                    && AreTitlesBy(call.naming.value, call.reply.drafts, call.reply.titles.value))
  {
    if call.naming.Some? {
      TitlesAre(call.naming.value, call.reply.drafts);
    }
    hide AreTitlesBy, TitlesOf, DraftsOf, InOrder, ReadAll, PendingOf;
  }
}
