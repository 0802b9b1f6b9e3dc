/** The questions of several inputs, each asked once. */
module SharedQuestions {
  import opened Schema

  // ── Questions ───────────────────────────────────────────────────────

  datatype Choice = Choice(id: string, text: string)

  datatype Question = Question(id: string, prompt: string, options: seq<Choice>, default: string)

  predicate HasOption(question: Question, answer: string) {
    exists k :: 0 <= k < |question.options| && question.options[k].id == answer
  }

  /** What a question's own constructor checks. */
  predicate IsQuestion(question: Question) {
    HasOption(question, question.default)
  }

  /** A question as the user gets it, about the inputs listed. */
  datatype Asked = Asked(question: Question, inputs: seq<nat>, about: Option<string>)

  // ── Asking once ─────────────────────────────────────────────────────

  /** The inputs of a question, in the order it is asked. */
  function InputsOf(asked: seq<Asked>, n: nat, question: Question): seq<nat>
    requires n <= |asked|
  {
    if n == 0 then []
    else InputsOf(asked, n - 1, question)
         + if asked[n - 1].question == question then asked[n - 1].inputs else []
  }

  function AllInputs(asked: seq<Asked>): seq<nat> {
    if asked == [] then [] else AllInputs(asked[..|asked| - 1]) + asked[|asked| - 1].inputs
  }

  predicate IsFirst(asked: seq<Asked>, question: Question, i: nat)
    requires i < |asked|
  {
    asked[i].question == question && forall j | 0 <= j < i :: asked[j].question != question
  }

  ghost predicate FirstsAscend(asked: seq<Asked>, n: nat, shared: seq<Asked>)
    requires n <= |asked|
  {
    forall k, l, i, j | 0 <= k < l < |shared| && 0 <= i < n && 0 <= j < n ::
      IsFirst(asked, shared[k].question, i) && IsFirst(asked, shared[l].question, j) ==> i < j
  }

  predicate Asks(shared: seq<Asked>, question: Question) {
    exists k :: 0 <= k < |shared| && shared[k].question == question
  }

  /** What is asked for all inputs, of the first `n` questions: each question once, in the order
      first asked, about every input that asks it; the input is named while just one does. */
  ghost predicate AreShared(asked: seq<Asked>, n: nat, shared: seq<Asked>)
    requires n <= |asked|
  {
    && (forall k, l | 0 <= k < l < |shared| :: shared[k].question != shared[l].question)
    && (forall j | 0 <= j < n :: Asks(shared, asked[j].question))
    && (forall k | 0 <= k < |shared| :: IsSharedAt(asked, n, shared[k]))
    && FirstsAscend(asked, n, shared)
  }

  ghost predicate IsSharedAt(asked: seq<Asked>, n: nat, one: Asked)
    requires n <= |asked|
  {
    && one.inputs == InputsOf(asked, n, one.question)
    && (exists i :: 0 <= i < n && IsFirst(asked, one.question, i)
          && one.about == if IsAskedAgain(asked, n, i) then None else asked[i].about)
  }

  predicate IsAskedAgain(asked: seq<Asked>, n: nat, i: nat)
    requires i < n <= |asked|
  {
    exists j :: i < j < n && asked[j].question == asked[i].question
  }

  method SameAs(shared: seq<Asked>, question: Question) returns (same: Option<nat>)
    ensures same.None? ==> !Asks(shared, question)
    ensures same.Some? ==> same.value < |shared| && shared[same.value].question == question
  {
    for k := 0 to |shared|
      invariant forall l | 0 <= l < k :: shared[l].question != question
    {
      if shared[k].question == question {
        return Some(k);
      }
    }
    return None;
  }

  /** Another input of a question asked already. */
  function AskedOfMore(one: Asked, inputs: seq<nat>): Asked {
    one.(inputs := one.inputs + inputs, about := None)
  }

  method Shared(questions: seq<Asked>) returns (shared: seq<Asked>)
    ensures AreShared(questions, |questions|, shared)
    ensures multiset(AllInputs(shared)) == multiset(AllInputs(questions))
  {
    shared := [];
    NothingShared(questions);
    hide AreShared, AllInputs, AskedOfMore;
    for n := 0 to |questions|
      invariant AreShared(questions, n, shared)
      invariant multiset(AllInputs(shared)) == multiset(AllInputs(questions[..n]))
    {
      var same := SameAs(shared, questions[n].question);
      AllInputsOfPrefix(questions, n);
      if same.None? {
        NewQuestion(questions, n, shared);
        shared := shared + [questions[n]];
      } else {
        var k := same.value;
        SameQuestion(questions, n, shared, k);
        AllInputsAt(shared, k, questions[n].inputs);
        shared := shared[k := AskedOfMore(shared[k], questions[n].inputs)];
      }
    }
    assert questions[..|questions|] == questions;
  }

  lemma AllInputsOfPrefix(asked: seq<Asked>, n: nat)
    requires n < |asked|
    ensures AllInputs(asked[..n + 1]) == AllInputs(asked[..n]) + asked[n].inputs
  {
    assert asked[..n + 1][..n] == asked[..n];
  }

  lemma {:induction false} AllInputsAt(shared: seq<Asked>, k: nat, more: seq<nat>)
    requires k < |shared|
    ensures var one := AskedOfMore(shared[k], more);
            multiset(AllInputs(shared[k := one])) == multiset(AllInputs(shared)) + multiset(more)
  {
    var one := AskedOfMore(shared[k], more);
    var n := |shared| - 1;
    if k == n {
      assert shared[k := one][..n] == shared[..n];
    } else {
      assert shared[k := one][..n] == shared[..n][k := one];
      AllInputsAt(shared[..n], k, more);
    }
  }

  lemma AskedAgainStays(asked: seq<Asked>, n: nat, i: nat)
    requires i < n < |asked| && asked[i].question != asked[n].question
    ensures IsAskedAgain(asked, n + 1, i) <==> IsAskedAgain(asked, n, i)
  {
    if IsAskedAgain(asked, n, i) {
      var j :| i < j < n && asked[j].question == asked[i].question;
      assert i < j < n + 1;
    }
  }

  lemma OthersStayShared(asked: seq<Asked>, n: nat, one: Asked)
    requires n < |asked| && IsSharedAt(asked, n, one) && one.question != asked[n].question
    ensures IsSharedAt(asked, n + 1, one)
  {
    hide IsAskedAgain;
    var i :| 0 <= i < n && IsFirst(asked, one.question, i)
             && one.about == if IsAskedAgain(asked, n, i) then None else asked[i].about;
    AskedAgainStays(asked, n, i);
    assert 0 <= i < n + 1;
    assert InputsOf(asked, n + 1, one.question) == InputsOf(asked, n, one.question);
  }

  lemma {:induction false} NotAskedBefore(asked: seq<Asked>, n: nat, question: Question)
    requires n <= |asked| && forall j | 0 <= j < n :: asked[j].question != question
    ensures InputsOf(asked, n, question) == []
  {
    if n > 0 {
      NotAskedBefore(asked, n - 1, question);
    }
  }

  lemma NewIsShared(asked: seq<Asked>, n: nat)
    requires n < |asked| && forall j | 0 <= j < n :: asked[j].question != asked[n].question
    ensures IsSharedAt(asked, n + 1, asked[n]) && IsFirst(asked, asked[n].question, n)
  {
    NotAskedBefore(asked, n, asked[n].question);
    assert !IsAskedAgain(asked, n + 1, n);
  }

  lemma SameIsShared(asked: seq<Asked>, n: nat, one: Asked)
    requires n < |asked| && IsSharedAt(asked, n, one) && one.question == asked[n].question
    ensures IsSharedAt(asked, n + 1, AskedOfMore(one, asked[n].inputs))
  {
    var i :| 0 <= i < n && IsFirst(asked, one.question, i)
             && one.about == if IsAskedAgain(asked, n, i) then None else asked[i].about;
    assert IsAskedAgain(asked, n + 1, i);
  }

  lemma NewQuestion(asked: seq<Asked>, n: nat, shared: seq<Asked>)
    requires n < |asked| && AreShared(asked, n, shared)
    requires !Asks(shared, asked[n].question)
    ensures AreShared(asked, n + 1, shared + [asked[n]])
    ensures AllInputs(shared + [asked[n]]) == AllInputs(shared) + asked[n].inputs
  {
    var more := shared + [asked[n]];
    assert more[..|shared|] == shared;
    forall j | 0 <= j < n
      ensures asked[j].question != asked[n].question && Asks(more, asked[j].question)
    {
      assert Asks(shared, asked[j].question);
      var k :| 0 <= k < |shared| && shared[k].question == asked[j].question;
      assert more[k].question == asked[j].question;
    }
    assert more[|shared|].question == asked[n].question;
    NewIsShared(asked, n);
    hide IsSharedAt, InputsOf, IsAskedAgain;
    forall k | 0 <= k < |shared|
      ensures IsSharedAt(asked, n + 1, more[k])
    {
      OthersStayShared(asked, n, shared[k]);
    }
    FirstsStillAscend(asked, n, shared);
  }

  lemma FirstsStillAscend(asked: seq<Asked>, n: nat, shared: seq<Asked>)
    requires n < |asked| && FirstsAscend(asked, n, shared)
    requires forall k | 0 <= k < |shared| :: shared[k].question != asked[n].question
    requires forall j | 0 <= j < n :: asked[j].question != asked[n].question
    ensures FirstsAscend(asked, n + 1, shared + [asked[n]])
  {
  }

  lemma FirstsAscendAsBefore(asked: seq<Asked>, n: nat, shared: seq<Asked>, more: seq<Asked>)
    requires n < |asked| && FirstsAscend(asked, n, shared) && |more| == |shared|
    requires forall k | 0 <= k < |shared| :: more[k].question == shared[k].question
    requires exists j :: 0 <= j < n && asked[j].question == asked[n].question
    ensures FirstsAscend(asked, n + 1, more)
  {
    forall question
      ensures !IsFirst(asked, question, n)
    {
    }
  }

  lemma StillAsked(asked: seq<Asked>, n: nat, shared: seq<Asked>, more: seq<Asked>)
    requires n < |asked| && |more| == |shared| && Asks(shared, asked[n].question)
    requires forall l | 0 <= l < |shared| :: more[l].question == shared[l].question
    requires forall j | 0 <= j < n :: Asks(shared, asked[j].question)
    ensures forall j | 0 <= j < n + 1 :: Asks(more, asked[j].question)
  {
    forall j | 0 <= j < n + 1
      ensures Asks(more, asked[j].question)
    {
      assert Asks(shared, asked[j].question);
      var l :| 0 <= l < |shared| && shared[l].question == asked[j].question;
      assert more[l].question == asked[j].question;
    }
  }

  lemma SharedWasAsked(asked: seq<Asked>, n: nat, one: Asked)
    requires n <= |asked| && IsSharedAt(asked, n, one)
    ensures exists j :: 0 <= j < n && asked[j].question == one.question
  {
    var i :| 0 <= i < n && IsFirst(asked, one.question, i);
    assert asked[i].question == one.question;
  }

  lemma MoreKeepsQuestions(shared: seq<Asked>, k: nat, inputs: seq<nat>)
    requires k < |shared|
    ensures forall l | 0 <= l < |shared| ::
              shared[k := AskedOfMore(shared[k], inputs)][l].question == shared[l].question
  {
  }

  lemma SameQuestion(asked: seq<Asked>, n: nat, shared: seq<Asked>, k: nat)
    requires n < |asked| && AreShared(asked, n, shared)
    requires k < |shared| && shared[k].question == asked[n].question
    ensures AreShared(asked, n + 1, shared[k := AskedOfMore(shared[k], asked[n].inputs)])
  {
    var more := shared[k := AskedOfMore(shared[k], asked[n].inputs)];
    assert Asks(shared, asked[n].question);
    hide FirstsAscend, IsSharedAt, InputsOf, IsAskedAgain, IsFirst, Asks, AskedOfMore;
    SameIsShared(asked, n, shared[k]);
    SharedWasAsked(asked, n, shared[k]);
    MoreKeepsQuestions(shared, k, asked[n].inputs);
    FirstsAscendAsBefore(asked, n, shared, more);
    StillAsked(asked, n, shared, more);
    forall l | 0 <= l < |more|
      ensures IsSharedAt(asked, n + 1, more[l])
    {
      if l != k {
        OthersStayShared(asked, n, shared[l]);
      }
    }
  }

  lemma NothingShared(asked: seq<Asked>)
    ensures AreShared(asked, 0, [])
  {
  }

  lemma {:induction false} SomeShared(asked: seq<Asked>, n: nat) returns (shared: seq<Asked>)
    requires n <= |asked|
    ensures AreShared(asked, n, shared)
  {
    hide AreShared, AskedOfMore;
    if n == 0 {
      shared := [];
      NothingShared(asked);
    } else {
      var before := SomeShared(asked, n - 1);
      if Asks(before, asked[n - 1].question) {
        var k :| 0 <= k < |before| && before[k].question == asked[n - 1].question;
        SameQuestion(asked, n - 1, before, k);
        shared := before[k := AskedOfMore(before[k], asked[n - 1].inputs)];
      } else {
        NewQuestion(asked, n - 1, before);
        shared := before + [asked[n - 1]];
      }
    }
  }

  // ── Every input's question goes to one result ───────────────────────

  lemma {:induction false} InputsAre(asked: seq<Asked>, n: nat, question: Question, input: nat)
    requires n <= |asked|
    ensures input in InputsOf(asked, n, question) <==>
              exists j :: 0 <= j < n && asked[j].question == question && input in asked[j].inputs
  {
    if n > 0 {
      InputsAre(asked, n - 1, question, input);
    }
  }

  predicate AsksInput(asked: seq<Asked>, question: Question, input: nat) {
    exists j :: 0 <= j < |asked| && asked[j].question == question && input in asked[j].inputs
  }

  /** An input is asked a question by the results exactly when it asked it, and by one result. */
  lemma SharedAsksTheSame(asked: seq<Asked>, shared: seq<Asked>, question: Question, input: nat)
    requires AreShared(asked, |asked|, shared)
    ensures AsksInput(shared, question, input) <==> AsksInput(asked, question, input)
    ensures forall k, l | 0 <= k < |shared| && 0 <= l < |shared| ::
              shared[k].question == question && shared[l].question == question ==> k == l
  {
    InputsAre(asked, |asked|, question, input);
    hide IsAskedAgain, IsFirst, FirstsAscend;
    if AsksInput(asked, question, input) {
      var j :| 0 <= j < |asked| && asked[j].question == question && input in asked[j].inputs;
      assert Asks(shared, asked[j].question);
      var k :| 0 <= k < |shared| && shared[k].question == question;
      assert IsSharedAt(asked, |asked|, shared[k]);
    }
    if AsksInput(shared, question, input) {
      var k :| 0 <= k < |shared| && shared[k].question == question && input in shared[k].inputs;
      assert IsSharedAt(asked, |asked|, shared[k]);
    }
  }
}
