/** What acceptance by the transcript validator means, without its running state. */
module TranscriptMeaning {
  import opened Common
  import opened Messages
  import opened Transcript
  import opened CompactionValidity

  ghost predicate Distinct(ids: seq<CallId>) {
    forall i, j :: 0 <= i < j < |ids| ==> ids[i] != ids[j]
  }

  /** Every call id has at most one use block and at most one result block. */
  ghost predicate OneBlockEach(ms: seq<Message>) {
    && UniqueIds(ms)
    && forall i :: 0 <= i < |ms| ==> Distinct(UseIds(ms[i])) && Distinct(ResultIds(ms[i]))
  }

  ghost predicate Makes(m: Message, id: CallId) {
    m.role == Assistant && id in UseIds(m)
  }

  ghost predicate Answers(m: Message, id: CallId) {
    m.role == Tool && id in ResultIds(m)
  }

  /** Call `id`, made by message `i`, is answered by message `j` and no user or system message comes between. */
  ghost predicate AnsweredBy(ms: seq<Message>, i: nat, j: nat, id: CallId) {
    && i < j < |ms| && Answers(ms[j], id)
    && forall k :: i < k < j ==> ms[k].role in {Assistant, Tool}
  }

  ghost predicate IsAnswered(ms: seq<Message>, i: nat, id: CallId) {
    exists j :: AnsweredBy(ms, i, j, id)
  }

  ghost predicate WasMade(ms: seq<Message>, j: nat, id: CallId)
    requires j <= |ms|
  {
    exists i :: 0 <= i < j && Makes(ms[i], id)
  }

  /** Every answer before position `n` has its call before it. */
  ghost predicate AnswersWereMade(ms: seq<Message>, n: nat)
    requires n <= |ms|
  {
    forall j, id {:trigger WasMade(ms, j, id)} | 0 <= j < n && Answers(ms[j], id) :: WasMade(ms, j, id)
  }

  /** Every call an assistant makes is answered in time, and every answer has a call before it. */
  ghost predicate WellPaired(ms: seq<Message>) {
    && (forall i, id {:trigger IsAnswered(ms, i, id)} | 0 <= i < |ms| && Makes(ms[i], id) :: IsAnswered(ms, i, id))
    && AnswersWereMade(ms, |ms|)
  }

  /** Call `id` was made before position `n` and not answered before it. */
  ghost predicate Unanswered(ms: seq<Message>, n: nat, id: CallId)
    requires n <= |ms|
  {
    && (exists i :: 0 <= i < n && Makes(ms[i], id))
    && (forall j :: 0 <= j < n ==> !Answers(ms[j], id))
  }

  lemma DistinctConcat(a: seq<CallId>, b: seq<CallId>)
    requires Distinct(a) && Distinct(b) && forall x <- b :: x !in a
    ensures Distinct(a + b)
  {
    forall i, j | 0 <= i < j < |a + b|
      ensures (a + b)[i] != (a + b)[j]
    {
      if i < |a| <= j {
        assert a[i] in a && b[j - |a|] in b;
      }
    }
  }

  lemma {:induction false} RemoveMembers(open: seq<CallId>, id: CallId)
    requires id in open && Distinct(open)
    ensures Distinct(Remove(open, id))
    ensures forall x :: x in Remove(open, id) <==> x in open && x != id
  {
    if open[0] == id {
      assert open == [id] + open[1..];
    } else {
      RemoveMembers(open[1..], id);
      assert open == [open[0]] + open[1..];
      DistinctConcat([open[0]], Remove(open[1..], id));
    }
  }

  lemma {:induction false} RemoveAllMembers(open: seq<CallId>, ids: seq<CallId>)
    requires Distinct(open) && Distinct(ids)
    ensures RemoveAll(open, ids).Some? <==> forall x <- ids :: x in open
    ensures RemoveAll(open, ids).Some? ==>
              var rest := RemoveAll(open, ids).value;
              Distinct(rest) && forall x :: x in rest <==> x in open && x !in ids
  {
    if ids != [] {
      var init, last := ids[..|ids| - 1], ids[|ids| - 1];
      assert ids == init + [last] && last !in init;
      RemoveAllMembers(open, init);
      if RemoveAll(open, init).Some? && last in RemoveAll(open, init).value {
        RemoveMembers(RemoveAll(open, init).value, last);
      }
    }
  }

  /** The open calls are exactly the unanswered ones. */
  ghost predicate OpenIsUnanswered(ms: seq<Message>, n: nat)
    requires n <= |ms|
  {
    Run([], ms[..n]).Some? ==>
      && Distinct(Run([], ms[..n]).value)
      && forall id :: id in Run([], ms[..n]).value <==> Unanswered(ms, n, id)
  }

  /** An id made by message `n` was not made or answered before, when the discipline has held so far. */
  lemma FreshUse(ms: seq<Message>, n: nat, id: CallId)
    requires n < |ms| && OneBlockEach(ms) && Makes(ms[n], id)
    requires AnswersWereMade(ms, n)
    ensures forall i :: 0 <= i < n ==> !Makes(ms[i], id) && !Answers(ms[i], id)
  {
    assert forall i :: 0 <= i < n ==> (Answers(ms[i], id) ==> WasMade(ms, i, id));
  }

  lemma {:induction false} OpenMeaning(ms: seq<Message>, n: nat)
    requires n <= |ms| && OneBlockEach(ms)
    ensures OpenIsUnanswered(ms, n)
    ensures Run([], ms[..n]).Some? ==> AnswersWereMade(ms, n)
  {
    if n > 0 && Run([], ms[..n]).Some? {
      assert ms[..n] == ms[..n - 1] + [ms[n - 1]];
      RunPush([], ms[..n - 1], ms[n - 1]);
      OpenMeaning(ms, n - 1);
      StepMeaning(ms, n - 1, Run([], ms[..n - 1]).value, Run([], ms[..n]).value);
    }
  }

  lemma StepMeaning(ms: seq<Message>, n: nat, open: seq<CallId>, next: seq<CallId>)
    requires n < |ms| && OneBlockEach(ms) && Next(open, ms[n]) == Some(next)
    requires Distinct(open) && forall id :: id in open <==> Unanswered(ms, n, id)
    requires AnswersWereMade(ms, n)
    ensures Distinct(next) && forall id :: id in next <==> Unanswered(ms, n + 1, id)
    ensures AnswersWereMade(ms, n + 1)
  {
    var m := ms[n];
    forall id
      ensures Unanswered(ms, n + 1, id) <==> !Answers(m, id) && (Unanswered(ms, n, id) || Makes(m, id))
    {
      if Makes(m, id) {
        FreshUse(ms, n, id);
      }
    }
    if m.role == Assistant {
      forall id | id in UseIds(m)
        ensures id !in open
      {
        FreshUse(ms, n, id);
      }
      DistinctConcat(open, UseIds(m));
    } else if m.role == Tool {
      RemoveAllMembers(open, ResultIds(m));
    }
    forall j, id | 0 <= j < n + 1 && Answers(ms[j], id)
      ensures WasMade(ms, j, id)
    {
      if j == n {
        assert Unanswered(ms, n, id);
      }
    }
  }

  /** The validator accepts a transcript exactly when its calls and answers are well paired. */
  lemma AcceptsIffWellPaired(ms: seq<Message>)
    requires OneBlockEach(ms)
    ensures Accepts(ms) <==> WellPaired(ms)
  {
    assert ms[..|ms|] == ms;
    if Accepts(ms) {
      AcceptedIsPaired(ms);
    }
    if WellPaired(ms) {
      PairedRuns(ms, |ms|);
      OpenMeaning(ms, |ms|);
      forall id
        ensures !Unanswered(ms, |ms|, id)
      {
        if exists i :: 0 <= i < |ms| && Makes(ms[i], id) {
          var i :| 0 <= i < |ms| && Makes(ms[i], id);
          assert IsAnswered(ms, i, id);
        }
      }
      Memberless(Run([], ms).value);
    }
  }

  lemma AcceptedIsPaired(ms: seq<Message>)
    requires OneBlockEach(ms) && Accepts(ms)
    ensures WellPaired(ms)
  {
    assert ms[..|ms|] == ms;
    OpenMeaning(ms, |ms|);
    forall i, id | 0 <= i < |ms| && Makes(ms[i], id)
      ensures IsAnswered(ms, i, id)
    {
      assert !Unanswered(ms, |ms|, id);
      var j :| 0 <= j < |ms| && Answers(ms[j], id);
      assert WasMade(ms, j, id);
      var maker :| 0 <= maker < j && Makes(ms[maker], id);
      assert maker == i;
      forall k | i < k < j
        ensures ms[k].role in {Assistant, Tool}
      {
        OpenBetween(ms, i, k, j, id);
      }
      assert AnsweredBy(ms, i, j, id);
    }
  }

  /** While a call is open the validator lets no user or system message pass. */
  lemma OpenBetween(ms: seq<Message>, i: nat, k: nat, j: nat, id: CallId)
    requires i < k < j < |ms| && OneBlockEach(ms) && Run([], ms).Some?
    requires Makes(ms[i], id) && Answers(ms[j], id)
    ensures ms[k].role in {Assistant, Tool}
  {
    StepTaken(ms, k);
    UnansweredBetween(ms, i, k, j, id);
    UnansweredIsOpen(ms, k, id);
    OpenBlocksUsers(Run([], ms[..k]).value, ms[k], id);
  }

  lemma OpenBlocksUsers(open: seq<CallId>, m: Message, id: CallId)
    requires id in open && Next(open, m).Some?
    ensures m.role in {Assistant, Tool}
  {
  }

  lemma UnansweredIsOpen(ms: seq<Message>, k: nat, id: CallId)
    requires k <= |ms| && OneBlockEach(ms) && Run([], ms[..k]).Some? && Unanswered(ms, k, id)
    ensures id in Run([], ms[..k]).value
  {
    OpenMeaning(ms, k);
  }

  lemma StepTaken(ms: seq<Message>, k: nat)
    requires k < |ms| && Run([], ms).Some?
    ensures Run([], ms[..k]).Some? && Next(Run([], ms[..k]).value, ms[k]).Some?
  {
    RunPrefix(ms, k);
    RunPrefix(ms, k + 1);
    assert ms[..k + 1] == ms[..k] + [ms[k]];
    RunPush([], ms[..k], ms[k]);
  }

  lemma UnansweredBetween(ms: seq<Message>, i: nat, k: nat, j: nat, id: CallId)
    requires i < k <= j < |ms| && UniqueIds(ms) && Makes(ms[i], id) && Answers(ms[j], id)
    ensures Unanswered(ms, k, id)
  {
  }

  lemma {:induction false} PairedRuns(ms: seq<Message>, n: nat)
    requires n <= |ms| && OneBlockEach(ms) && WellPaired(ms)
    ensures Run([], ms[..n]).Some?
  {
    if n > 0 {
      PairedRuns(ms, n - 1);
      assert ms[..n] == ms[..n - 1] + [ms[n - 1]];
      RunPush([], ms[..n - 1], ms[n - 1]);
      OpenMeaning(ms, n - 1);
      PairedStep(ms, n - 1, Run([], ms[..n - 1]).value);
    }
  }

  lemma PairedStep(ms: seq<Message>, n: nat, open: seq<CallId>)
    requires n < |ms| && OneBlockEach(ms) && WellPaired(ms)
    requires Distinct(open) && forall id :: id in open <==> Unanswered(ms, n, id)
    ensures Next(open, ms[n]).Some?
  {
    var m := ms[n];
    if m.role == Tool {
      RemoveAllMembers(open, ResultIds(m));
      forall id | id in ResultIds(m)
        ensures id in open
      {
        assert Answers(m, id) && WasMade(ms, n, id);
        assert Unanswered(ms, n, id);
      }
    } else if m.role in {User, System} {
      forall id
        ensures id !in open
      {
        NothingOpenForUsers(ms, n, id);
      }
      Memberless(open);
    }
  }

  lemma NothingOpenForUsers(ms: seq<Message>, n: nat, id: CallId)
    requires n < |ms| && WellPaired(ms) && ms[n].role in {User, System}
    ensures !Unanswered(ms, n, id)
  {
    forall i | 0 <= i < n && Makes(ms[i], id)
      ensures exists j :: 0 <= j < n && Answers(ms[j], id)
    {
      assert IsAnswered(ms, i, id);
      var j: nat :| AnsweredBy(ms, i, j, id);
      assert j < n;
    }
  }

  lemma Memberless(s: seq<CallId>)
    ensures (forall x :: x !in s) ==> s == []
  {
    assert s != [] ==> s[0] in s;
  }
}
