/**
 Autosave of the post being written. Each save is chained behind the one before it, whether that one
 fails or not; publishing waits for the end of the chain and then clears the stored draft.
 */
module FeedDrafts {
  import opened Common

  type Account = string

  datatype Draft = Draft(content: Text, media: seq<string>)

  /** A save chained onto the promise `after`: it starts when that one has settled either way. */
  datatype Job = Job(account: Account, draft: Draft, after: Option<nat>)

  /** Where `publish` stands. `publishing` is true in every phase but the first. */
  datatype Phase = Idle | Posting(account: Account) | Draining(account: Account, tail: Option<nat>) | Closing

  /** `jobs` is every save ever chained; `draftWrites` is the end of the chain. */
  datatype Composer = Composer(jobs: seq<Job>, draftWrites: Option<nat>, phase: Phase)

  const Fresh := Composer([], None, Idle)

  /** A timer may still fire before the render that cancels it, but not once the post is sent. */
  predicate CanSchedule(c: Composer) {
    c.phase.Idle? || c.phase.Posting?
  }

  function Scheduled(c: Composer, account: Account, draft: Draft): Composer {
    if !CanSchedule(c) then c
    else c.(jobs := c.jobs + [Job(account, draft, c.draftWrites)], draftWrites := Some(|c.jobs|))
  }

  class FeedComposer {
    var jobs: seq<Job>
    var draftWrites: Option<nat>
    var phase: Phase

    function State(): Composer
      reads this
    {
      Composer(jobs, draftWrites, phase)
    }

    constructor ()
      ensures State() == Fresh
      ensures jobs == [] && draftWrites == None && phase == Idle
    {
      jobs, draftWrites, phase := [], None, Idle;
    }

    method AutosaveTimer(accountId: Account, draft: Draft)
      modifies this
      ensures State() == Scheduled(old(State()), accountId, draft)
      ensures old(phase).Idle? || old(phase).Posting? ==>
                && jobs == old(jobs) + [Job(accountId, draft, old(draftWrites))]
                && draftWrites == Some(|old(jobs)|) && phase == old(phase)
      ensures !old(phase).Idle? && !old(phase).Posting? ==> State() == old(State())
    {
      if phase.Idle? || phase.Posting? {
        var save := Job(accountId, draft, draftWrites);
        jobs := jobs + [save];
        draftWrites := Some(|jobs| - 1);
      }
    }

    /** The post that is sent: the trimmed text, or a space when there are only photos, and the photos. */
    method BeginPublish(userId: Account, content: Text, photos: seq<string>, offline: bool)
      returns (post: Option<(Text, seq<string>)>)
      modifies this
      ensures post.Some? <==> old(phase).Idle? && !offline && (Trim(content) != [] || photos != [])
      ensures post.Some? ==> post.value == (if Trim(content) != [] then Trim(content) else [32], photos)
      ensures phase == if post.Some? then Posting(userId) else old(phase)
      ensures jobs == old(jobs) && draftWrites == old(draftWrites)
    {
      var value := Trim(content);
      if (value == [] && photos == []) || !phase.Idle? {
        return None;
      }
      if offline {
        return None;
      }
      phase := Posting(userId);
      post := Some((if value != [] then value else [32], photos));
    }

    method PostAnswered(accepted: bool)
      modifies this
      ensures old(phase).Posting? ==>
        State() == old(State()).(phase := if accepted then Draining(old(phase).account, old(draftWrites)) else Idle)
      ensures !old(phase).Posting? ==> State() == old(State())
      ensures jobs == old(jobs) && draftWrites == old(draftWrites)
    {
      if phase.Posting? {
        phase := if accepted then Draining(phase.account, draftWrites) else Idle;
      }
    }
  }

  // ---------------------------------------------------------------- the chain at work

  /** What reached storage, in order. `mark` is how many saves had been scheduled at the clear. */
  datatype Event = Saved(job: nat) | Cleared(account: Account, mark: nat)

  datatype System = System(
    composer: Composer, started: set<nat>, settled: set<nat>, log: seq<Event>, store: map<Account, Draft>)

  datatype Action =
    | Autosave(account: Account, draft: Draft)
    | StartJob(k: nat)
    | SettleJob(k: nat, ok: bool)
    | Publish(account: Account)
    | Posted(accepted: bool)
    | Clear(ok: bool)
    | Close

  predicate Settled(s: System, promise: Option<nat>) {
    promise.Some? ==> promise.value in s.settled
  }

  /** Storing an empty draft removes the stored one. */
  function Written(store: map<Account, Draft>, account: Account, draft: Draft): map<Account, Draft> {
    if draft == Draft([], []) then store - {account} else store[account := draft]
  }

  function Step(s: System, a: Action): System {
    var c := s.composer;
    match a
    case Autosave(account, draft) => s.(composer := Scheduled(c, account, draft))
    case StartJob(k) =>
      if k < |c.jobs| && k !in s.started && Settled(s, c.jobs[k].after) then s.(started := s.started + {k}) else s
    case SettleJob(k, ok) =>
      if k !in s.started || k in s.settled || k >= |c.jobs| then s
      else if !ok then s.(settled := s.settled + {k})
      else s.(settled := s.settled + {k}, log := s.log + [Saved(k)],
              store := Written(s.store, c.jobs[k].account, c.jobs[k].draft))
    case Publish(account) => if c.phase.Idle? then s.(composer := c.(phase := Posting(account))) else s
    case Posted(accepted) =>
      if !c.phase.Posting? then s else
        s.(composer := c.(phase := if accepted then Draining(c.phase.account, c.draftWrites) else Idle))
    case Clear(ok) =>
      if !c.phase.Draining? || !Settled(s, c.phase.tail) then s
      else if !ok then s.(composer := c.(phase := Closing))
      else s.(composer := c.(phase := Closing), log := s.log + [Cleared(c.phase.account, |c.jobs|)],
              store := s.store - {c.phase.account})
    case Close => if c.phase.Closing? then s.(composer := c.(phase := Idle)) else s
  }

  function Run(s: System, actions: seq<Action>): System {
    if actions == [] then s else Step(Run(s, actions[..|actions| - 1]), actions[|actions| - 1])
  }

  ghost predicate Start(s: System) {
    s.composer == Fresh && s.started == s.settled == {} && s.log == []
  }

  ghost predicate Chained(c: Composer) {
    && c.draftWrites == (if c.jobs == [] then None else Some(|c.jobs| - 1))
    && (forall k :: 0 <= k < |c.jobs| ==> c.jobs[k].after == if k == 0 then None else Some(k - 1))
    && (c.phase.Draining? ==> c.phase.tail == c.draftWrites)
  }

  ghost predicate OneAtATime(s: System) {
    && (forall k :: k in s.started ==> k < |s.composer.jobs|)
    && s.settled <= s.started
    && (forall j: nat, k :: k in s.started && j < k ==> j in s.settled)
  }

  /** In the log, saves stand in scheduling order, and each clear stands between the saves before and after it. */
  ghost predicate Ordered(log: seq<Event>) {
    forall i, j :: 0 <= i < j < |log| ==>
      match (log[i], log[j])
      case (Saved(k), Saved(l)) => k < l
      case (Saved(k), Cleared(_, mark)) => k < mark
      case (Cleared(_, mark), Saved(l)) => mark <= l
      case (Cleared(_, m), Cleared(_, n)) => m <= n
  }

  ghost predicate LogSettled(s: System) {
    forall i :: 0 <= i < |s.log| ==>
      match s.log[i]
      case Saved(k) => k in s.settled
      case Cleared(_, mark) => mark <= |s.composer.jobs| && forall k: nat :: k < mark ==> k in s.settled
  }

  ghost predicate Inv(s: System) {
    Chained(s.composer) && OneAtATime(s) && LogSettled(s) && Ordered(s.log)
  }

  lemma SettleKeepsInv(s: System, k: nat, ok: bool)
    requires Inv(s)
    ensures Inv(Step(s, SettleJob(k, ok)))
  {
  }

  lemma ClearKeepsInv(s: System, ok: bool)
    requires Inv(s)
    ensures Inv(Step(s, Clear(ok)))
  {
    if Step(s, Clear(ok)) != s && s.composer.jobs != [] {
      assert |s.composer.jobs| - 1 in s.settled;
    }
  }

  lemma StepKeepsInv(s: System, a: Action)
    requires Inv(s)
    ensures Inv(Step(s, a))
  {
    match a {
      case SettleJob(k, ok) => SettleKeepsInv(s, k, ok);
      case Clear(ok) => ClearKeepsInv(s, ok);
      case _ =>
    }
  }

  lemma {:induction false} RunKeepsInv(s: System, actions: seq<Action>)
    requires Start(s)
    ensures Inv(Run(s, actions))
  {
    if actions != [] {
      RunKeepsInv(s, actions[..|actions| - 1]);
      StepKeepsInv(Run(s, actions[..|actions| - 1]), actions[|actions| - 1]);
    }
  }

  /** In every run at most one save is under way, and the saves that reach storage do so in scheduling order. */
  lemma {:induction false} SavesAreSerialised(s: System, actions: seq<Action>)
    requires Start(s)
    ensures var t := Run(s, actions);
            && (forall j, k :: j in t.started - t.settled && k in t.started - t.settled ==> j == k)
            && (forall i, j :: 0 <= i < j < |t.log| && t.log[i].Saved? && t.log[j].Saved? ==> t.log[i].job < t.log[j].job)
  {
    RunKeepsInv(s, actions);
    var t := Run(s, actions);
    forall i, j | 0 <= i < j < |t.log| && t.log[i].Saved? && t.log[j].Saved?
      ensures t.log[i].job < t.log[j].job
    {
      assert t.log[i] == Saved(t.log[i].job) && t.log[j] == Saved(t.log[j].job);
    }
  }

  /** The stored drafts are what the log, read from the beginning, would have left. */
  function Replay(store: map<Account, Draft>, jobs: seq<Job>, log: seq<Event>): map<Account, Draft> {
    if log == [] then store else
      After(Replay(store, jobs, log[..|log| - 1]), jobs, log[|log| - 1])
  }

  function After(store: map<Account, Draft>, jobs: seq<Job>, e: Event): map<Account, Draft> {
    match e
    case Saved(k) => if k < |jobs| then Written(store, jobs[k].account, jobs[k].draft) else store
    case Cleared(account, _) => store - {account}
  }

  ghost predicate InRange(log: seq<Event>, n: nat) {
    forall i :: 0 <= i < |log| && log[i].Saved? ==> log[i].job < n
  }

  lemma {:induction false} ReplayIgnoresLaterJobs(store: map<Account, Draft>, jobs: seq<Job>, more: seq<Job>, log: seq<Event>)
    requires InRange(log, |jobs|)
    ensures Replay(store, jobs + more, log) == Replay(store, jobs, log)
  {
    if log != [] {
      ReplayIgnoresLaterJobs(store, jobs, more, log[..|log| - 1]);
    }
  }

  ghost predicate Replayed(store: map<Account, Draft>, s: System) {
    s.store == Replay(store, s.composer.jobs, s.log) && InRange(s.log, |s.composer.jobs|)
  }

  lemma LogOneMore(store: map<Account, Draft>, jobs: seq<Job>, log: seq<Event>, e: Event)
    ensures Replay(store, jobs, log + [e]) == After(Replay(store, jobs, log), jobs, e)
  {
    assert (log + [e])[..|log|] == log;
  }

  lemma SettleKeepsReplay(store: map<Account, Draft>, s: System, k: nat, ok: bool)
    requires Replayed(store, s)
    ensures Replayed(store, Step(s, SettleJob(k, ok)))
  {
    LogOneMore(store, s.composer.jobs, s.log, Saved(k));
  }

  lemma ClearKeepsReplay(store: map<Account, Draft>, s: System, ok: bool)
    requires Replayed(store, s)
    ensures Replayed(store, Step(s, Clear(ok)))
  {
    if s.composer.phase.Draining? {
      LogOneMore(store, s.composer.jobs, s.log, Cleared(s.composer.phase.account, |s.composer.jobs|));
    }
  }

  lemma AutosaveKeepsReplay(store: map<Account, Draft>, s: System, account: Account, draft: Draft)
    requires Replayed(store, s)
    ensures Replayed(store, Step(s, Autosave(account, draft)))
  {
    ReplayIgnoresLaterJobs(store, s.composer.jobs, [Job(account, draft, s.composer.draftWrites)], s.log);
  }

  lemma StepKeepsReplay(store: map<Account, Draft>, s: System, a: Action)
    requires Replayed(store, s)
    ensures Replayed(store, Step(s, a))
  {
    match a {
      case Autosave(account, draft) => AutosaveKeepsReplay(store, s, account, draft);
      case SettleJob(k, ok) => SettleKeepsReplay(store, s, k, ok);
      case Clear(ok) => ClearKeepsReplay(store, s, ok);
      case _ =>
    }
  }

  lemma {:induction false} StoreIsReplay(s: System, actions: seq<Action>)
    requires Start(s)
    ensures Replayed(s.store, Run(s, actions))
  {
    if actions != [] {
      StoreIsReplay(s, actions[..|actions| - 1]);
      StepKeepsReplay(s.store, Run(s, actions[..|actions| - 1]), actions[|actions| - 1]);
    }
  }

  /** A draft stored although the log once cleared it was saved after that clear. */
  lemma {:induction false} StoredDraftWasSaved(
      store: map<Account, Draft>, jobs: seq<Job>, log: seq<Event>, account: Account, c: nat)
    returns (i: nat)
    requires c < |log| && log[c].Cleared? && log[c].account == account
    requires InRange(log, |jobs|) && account in Replay(store, jobs, log)
    ensures c < i < |log| && log[i].Saved? && log[i].job < |jobs|
    ensures jobs[log[i].job].account == account && jobs[log[i].job].draft == Replay(store, jobs, log)[account]
  {
    var init, last := log[..|log| - 1], log[|log| - 1];
    if last.Saved? && jobs[last.job].account == account {
      i := |log| - 1;
    } else {
      i := StoredDraftWasSaved(store, jobs, init, account, c);
    }
  }

  /**
   A published draft is not resurrected: after the successful clear of an account, whatever is stored for
   it comes from a save that was scheduled after that clear.
   */
  lemma {:induction false} PublishedDraftStaysCleared(s: System, actions: seq<Action>, c: nat)
    requires Start(s)
    requires var t := Run(s, actions); c < |t.log| && t.log[c].Cleared?
    ensures var t := Run(s, actions);
            var account, mark := t.log[c].account, t.log[c].mark;
            && (forall i :: c < i < |t.log| && t.log[i].Saved? ==> t.log[i].job >= mark)
            && (account in t.store ==>
                  exists k: nat :: mark <= k < |t.composer.jobs|
                    && t.composer.jobs[k].account == account && t.composer.jobs[k].draft == t.store[account])
  {
    RunKeepsInv(s, actions);
    StoreIsReplay(s, actions);
    var t := Run(s, actions);
    forall i | c < i < |t.log| && t.log[i].Saved? ensures t.log[i].job >= t.log[c].mark {
      assert t.log[i] == Saved(t.log[i].job) && t.log[c] == Cleared(t.log[c].account, t.log[c].mark);
    }
    if t.log[c].account in t.store {
      var i := StoredDraftWasSaved(s.store, t.composer.jobs, t.log, t.log[c].account, c);
      assert t.log[i].job >= t.log[c].mark;
    }
  }

  // ---------------------------------------------------------------- what was typed and what is stored

  /** The autosaves of the run that were scheduled, with what was typed. */
  function Autosaves(s: System, actions: seq<Action>): seq<(Account, Draft)> {
    if actions == [] then [] else
      var before, a := actions[..|actions| - 1], actions[|actions| - 1];
      var phase := Run(s, before).composer.phase;
      Autosaves(s, before) + if a.Autosave? && (phase.Idle? || phase.Posting?) then [(a.account, a.draft)] else []
  }

  lemma StepAddsJob(s: System, a: Action)
    ensures var jobs, now := s.composer.jobs, Step(s, a).composer.jobs;
            if a.Autosave? && (s.composer.phase.Idle? || s.composer.phase.Posting?)
            then |now| == |jobs| + 1 && now[..|jobs|] == jobs
                 && now[|jobs|].account == a.account && now[|jobs|].draft == a.draft
            else now == jobs
  {
  }

  /** Each job is one of them, in order. */
  lemma {:induction false} JobsAreAutosaves(s: System, actions: seq<Action>)
    requires Start(s)
    ensures var jobs, saves := Run(s, actions).composer.jobs, Autosaves(s, actions);
            && |jobs| == |saves|
            && forall k :: 0 <= k < |jobs| ==> jobs[k].account == saves[k].0 && jobs[k].draft == saves[k].1
  {
    if actions != [] {
      var before, a := actions[..|actions| - 1], actions[|actions| - 1];
      JobsAreAutosaves(s, before);
      StepAddsJob(Run(s, before), a);
      var jobs, now := Run(s, before).composer.jobs, Run(s, actions).composer.jobs;
      assert forall k :: 0 <= k < |jobs| ==> now[k] == now[..|jobs|][k];
    }
  }

  /** The event wrote or removed the draft of the account. */
  predicate Concerns(e: Event, saves: seq<(Account, Draft)>, account: Account) {
    match e
    case Saved(k) => k < |saves| && saves[k].0 == account
    case Cleared(a, _) => a == account
  }

  /** What the event leaves for the account, where storing an empty draft removes it. */
  predicate Leaves(e: Event, saves: seq<(Account, Draft)>, account: Account, store: map<Account, Draft>) {
    match e
    case Saved(k) =>
      k < |saves| && if saves[k].1.content == [] && saves[k].1.media == [] then account !in store
                     else account in store && store[account] == saves[k].1
    case Cleared(_, _) => account !in store
  }

  predicate SameFor(account: Account, a: map<Account, Draft>, b: map<Account, Draft>) {
    (account in a <==> account in b) && (account in a ==> a[account] == b[account])
  }

  ghost predicate Untouched(log: seq<Event>, from: nat, saves: seq<(Account, Draft)>, account: Account) {
    forall j :: from <= j < |log| ==> !Concerns(log[j], saves, account)
  }

  ghost predicate Match(jobs: seq<Job>, saves: seq<(Account, Draft)>) {
    |jobs| == |saves| && forall k :: 0 <= k < |jobs| ==> jobs[k].account == saves[k].0 && jobs[k].draft == saves[k].1
  }

  lemma {:induction false} ReplayLeaves(
      store: map<Account, Draft>, jobs: seq<Job>, saves: seq<(Account, Draft)>, log: seq<Event>, account: Account)
    requires Match(jobs, saves) && InRange(log, |jobs|)
    ensures var now := Replay(store, jobs, log);
            && (Untouched(log, 0, saves, account) ==> SameFor(account, now, store))
            && forall i :: 0 <= i < |log| && Concerns(log[i], saves, account) && Untouched(log, i + 1, saves, account)
                 ==> Leaves(log[i], saves, account, now)
  {
    if log != [] {
      var init, last := log[..|log| - 1], log[|log| - 1];
      ReplayLeaves(store, jobs, saves, init, account);
      var before, now := Replay(store, jobs, init), Replay(store, jobs, log);
      assert now == After(before, jobs, last);
      if !Concerns(last, saves, account) {
        assert SameFor(account, now, before);
        forall i | 0 <= i < |log| && Concerns(log[i], saves, account) && Untouched(log, i + 1, saves, account)
          ensures Leaves(log[i], saves, account, now)
        {
          assert log[i] == init[i] && Untouched(init, i + 1, saves, account);
        }
        assert Untouched(log, 0, saves, account) ==> Untouched(init, 0, saves, account);
      } else {
        assert Leaves(last, saves, account, now);
      }
    }
  }

  /**
   After any run, the draft stored for an account is what was typed at the last of its autosaves that reached
   storage after its last clear; with none of either, it is what was stored at first.
   */
  lemma {:induction false} StoreIsLastTyped(s: System, actions: seq<Action>, account: Account)
    requires Start(s)
    ensures var t, saves := Run(s, actions), Autosaves(s, actions);
            && (Untouched(t.log, 0, saves, account) ==> SameFor(account, t.store, s.store))
            && forall i :: 0 <= i < |t.log| && Concerns(t.log[i], saves, account) && Untouched(t.log, i + 1, saves, account)
                 ==> Leaves(t.log[i], saves, account, t.store)
  {
    JobsAreAutosaves(s, actions);
    StoreIsReplay(s, actions);
    var t := Run(s, actions);
    ReplayLeaves(s.store, t.composer.jobs, Autosaves(s, actions), t.log, account);
  }

  /** The log grows by the saves that succeed and the clears that succeed, and by nothing else. */
  lemma LogIsWhatSucceeded(s: System, a: Action)
    ensures var log, now := s.log, Step(s, a).log;
            if a.SettleJob? && a.ok && a.k in s.started && a.k !in s.settled && a.k < |s.composer.jobs|
            then now == log + [Saved(a.k)]
            else if a.Clear? && a.ok && s.composer.phase.Draining? && Settled(s, s.composer.phase.tail)
            then now == log + [Cleared(s.composer.phase.account, |s.composer.jobs|)]
            else now == log
  {
  }
}
