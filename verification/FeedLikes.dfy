/**
 Likes in the feed: toggles sent to the server, raced against batched reads of the server's like
 status, and guarded by a lock for each post, a revision number and the feed's generation.
 */
module FeedLikes {
  import opened Common

  type Id = string

  const BATCH := 50

  /** One run of the like-status effect: the posts it asked about and the revision it captured. */
  datatype StatusRead = StatusRead(ids: seq<Id>, revision: nat, pages: map<nat, map<Id, bool>>)

  datatype Client = Client(
    feedFresh: bool, myLikes: map<Id, bool>, locked: set<Id>, revision: nat, generation: nat,
    read: Option<StatusRead>)

  // ---------------------------------------------------------------- batches

  function BatchCount(ids: seq<Id>): nat {
    (|ids| + BATCH - 1) / BATCH
  }

  function Least(a: nat, b: nat): nat {
    if a < b then a else b
  }

  /** `ids.slice(index*50, index*50+50)` */
  function Batch(ids: seq<Id>, index: nat): seq<Id> {
    var from, to := Least(index * BATCH, |ids|), Least(index * BATCH + BATCH, |ids|);
    ids[from..to]
  }

  /** The batch that post `k` is asked about in is the only one, and the server takes every batch. */
  lemma BatchesPartition(ids: seq<Id>, k: nat)
    requires k < |ids| && NoDuplicates(ids)
    ensures forall index :: 0 <= index < BatchCount(ids) ==> 1 <= |Batch(ids, index)| <= BATCH
    ensures forall index: nat :: ids[k] in Batch(ids, index) <==> index == k / BATCH
    ensures k / BATCH < BatchCount(ids)
  {
    forall index: nat ensures ids[k] in Batch(ids, index) <==> index == k / BATCH {
      if ids[k] in Batch(ids, index) {
        var i :| 0 <= i < |Batch(ids, index)| && Batch(ids, index)[i] == ids[k];
        assert ids[index * BATCH + i] == ids[k];
        assert index * BATCH + i == k;
      }
      if index == k / BATCH {
        assert Batch(ids, index)[k % BATCH] == ids[k];
      }
    }
  }

  /** `Object.assign({}, ...pages)`: the pages in order, later ones over earlier ones. */
  function Assigned(pages: map<nat, map<Id, bool>>, n: nat): map<Id, bool> {
    if n == 0 then map[] else
      Assigned(pages, n - 1) + if n - 1 in pages then pages[n - 1] else map[]
  }

  lemma {:induction false} AssignedComesFromPages(pages: map<nat, map<Id, bool>>, n: nat, p: Id)
    requires p in Assigned(pages, n)
    ensures exists i: nat :: i < n && i in pages && p in pages[i] && Assigned(pages, n)[p] == pages[i][p]
  {
    if n - 1 in pages && p in pages[n - 1] {
    } else {
      AssignedComesFromPages(pages, n - 1, p);
    }
  }

  lemma {:induction false} AssignedKeepsPages(pages: map<nat, map<Id, bool>>, n: nat, i: nat, p: Id)
    requires i < n && i in pages && p in pages[i]
    ensures p in Assigned(pages, n)
  {
    if i < n - 1 {
      AssignedKeepsPages(pages, n - 1, i, p);
    }
  }

  /** Put together, the pages say of each post what the page of its own batch says, and nothing more. */
  lemma {:induction false} AssignedIsOwnBatch(ids: seq<Id>, pages: map<nat, map<Id, bool>>, k: nat)
    requires NoDuplicates(ids) && k < |ids|
    requires forall i, p :: i in pages && p in pages[i] ==> p in Batch(ids, i)
    ensures var shown, own := Assigned(pages, BatchCount(ids)), k / BATCH;
            && (ids[k] in shown <==> own in pages && ids[k] in pages[own])
            && (ids[k] in shown ==> shown[ids[k]] == pages[own][ids[k]])
  {
    BatchesPartition(ids, k);
    if ids[k] in Assigned(pages, BatchCount(ids)) {
      AssignedComesFromPages(pages, BatchCount(ids), ids[k]);
    }
    if k / BATCH in pages && ids[k] in pages[k / BATCH] {
      AssignedKeepsPages(pages, BatchCount(ids), k / BATCH, ids[k]);
    }
  }

  // ---------------------------------------------------------------- handlers

  /** The like-status effect runs again: what is shown is dropped and a new read starts, if any. */
  function Rerun(c: Client, isFresh: bool, ids: seq<Id>): Client {
    c.(feedFresh := isFresh, myLikes := map[],
       read := if isFresh && ids != [] then Some(StatusRead(ids, c.revision, map[])) else None)
  }

  predicate Complete(r: StatusRead) {
    forall index :: 0 <= index < BatchCount(r.ids) ==> index in r.pages
  }

  /** Every batch has been answered: the answer is shown unless a like was confirmed meanwhile. */
  function Installed(c: Client): Client {
    if c.read.None? || !Complete(c.read.value) then c
    else if c.read.value.revision == c.revision
    then c.(myLikes := Assigned(c.read.value.pages, BatchCount(c.read.value.ids)), read := None)
    else c.(read := None)
  }

  predicate CanLike(c: Client, p: Id, offline: bool) {
    c.feedFresh && !offline && p !in c.locked
  }

  /** The answer to a like that was sent in generation `sent`. */
  function Answered(c: Client, p: Id, sent: nat, liked: bool): Client {
    if sent != c.generation then c.(locked := c.locked - {p})
    else c.(locked := c.locked - {p}, revision := c.revision + 1, myLikes := c.myLikes[p := liked])
  }

  /** The public count beside the heart, on the posts that are listed. */
  function Counted(likes: map<Id, int>, p: Id, liked: bool): map<Id, int> {
    if p !in likes then likes else
      var count := likes[p] + if liked then 1 else -1;
      likes[p := if count < 0 then 0 else count]
  }

  /** The like failed as far as the client knows. */
  function Failed(c: Client, p: Id): Client {
    c.(locked := c.locked - {p})
  }

  class FeedExperience {
    var feedFresh: bool
    var myLikes: map<Id, bool>
    var likeLock: set<Id>
    var likeRevision: nat
    var feedRequest: nat
    var status: Option<StatusRead>
    var likes: map<Id, int>  // `_count.likes` of each listed post

    function State(): Client
      reads this
    {
      Client(feedFresh, myLikes, likeLock, likeRevision, feedRequest, status)
    }

    method LikeStatusEffect(isFresh: bool, ids: seq<Id>)
      modifies this
      ensures State() == Rerun(old(State()), isFresh, ids) && likes == old(likes)
      ensures feedFresh == isFresh && myLikes == map[]
      ensures status == if isFresh && ids != [] then Some(StatusRead(ids, old(likeRevision), map[])) else None
      ensures likeLock == old(likeLock) && likeRevision == old(likeRevision) && feedRequest == old(feedRequest)
    {
      feedFresh := isFresh;
      status := None;  // the cleanup of the previous run makes it inactive
      var revision := likeRevision;
      myLikes := map[];
      if !isFresh || ids == [] {
        return;
      }
      status := Some(StatusRead(ids, revision, map[]));
    }

    method StatusAnswered()
      modifies this
      ensures State() == Installed(old(State())) && likes == old(likes)
      ensures likeLock == old(likeLock) && likeRevision == old(likeRevision) && feedRequest == old(feedRequest)
      ensures old(status).None? || old(status).value.revision != old(likeRevision) ==> myLikes == old(myLikes)
    {
      if status.None? || !Complete(status.value) {
        return;
      }
      if status.value.revision == likeRevision {
        myLikes := Assigned(status.value.pages, BatchCount(status.value.ids));
      }
      status := None;
    }

    method BeginLike(postId: Id, offline: bool) returns (sent: Option<nat>)
      modifies this
      ensures sent.Some? <==> old(feedFresh) && !offline && postId !in old(likeLock)
      ensures sent.Some? ==> sent.value == old(feedRequest)
      ensures State() == if sent.Some? then old(State()).(locked := old(likeLock) + {postId}) else old(State())
      ensures likes == old(likes)
    {
      if !feedFresh || offline || postId in likeLock {
        return None;
      }
      likeLock := likeLock + {postId};
      sent := Some(feedRequest);
    }

    method LikeAnswered(postId: Id, generation: nat, liked: bool)
      modifies this
      ensures State() == Answered(old(State()), postId, generation, liked)
      ensures likeLock == old(likeLock) - {postId} && feedRequest == old(feedRequest)
      ensures generation == old(feedRequest) ==>
                && likeRevision == old(likeRevision) + 1
                && postId in myLikes && (myLikes[postId] <==> liked)
                && (forall p :: p != postId ==>
                      (p in myLikes <==> p in old(myLikes)) && (p in myLikes ==> myLikes[p] == old(myLikes)[p]))
      ensures generation != old(feedRequest) ==> myLikes == old(myLikes) && likeRevision == old(likeRevision)
      ensures likes == if generation == old(feedRequest) then Counted(old(likes), postId, liked) else old(likes)
      ensures forall p :: (p in likes <==> p in old(likes)) && (p in likes && p != postId ==> likes[p] == old(likes)[p])
      ensures generation == old(feedRequest) && postId in likes ==>
                && (liked && old(likes)[postId] >= 0 ==> likes[postId] == old(likes)[postId] + 1)
                && (!liked && old(likes)[postId] > 0 ==> likes[postId] == old(likes)[postId] - 1)
                && (!liked && old(likes)[postId] <= 0 ==> likes[postId] == 0)
    {
      if generation == feedRequest {
        likeRevision := likeRevision + 1;
        myLikes := myLikes[postId := liked];
        if postId in likes {
          var count := likes[postId] + if liked then 1 else -1;
          likes := likes[postId := if count < 0 then 0 else count];
        }
      }
      likeLock := likeLock - {postId};
    }

    method LikeFailed(postId: Id)
      modifies this
      ensures State() == Failed(old(State()), postId) && likes == old(likes)
      ensures likeLock == old(likeLock) - {postId} && myLikes == old(myLikes) && likeRevision == old(likeRevision)
    {
      likeLock := likeLock - {postId};
    }
  }

  // ---------------------------------------------------------------- the race

  /** A like on its way: not yet at the server, or applied there with the answer on its way back. */
  datatype Flight = Sent(generation: nat) | Applied(generation: nat, liked: bool)

  /**
   `liked` is the server's truth for this account. `unseen` is auxiliary and serves the proof: the posts that
   the server has toggled an odd number of times since it last gave the client their value (`UnseenIsParity`).
   */
  datatype System = System(client: Client, liked: set<Id>, flights: map<Id, Flight>, unseen: set<Id>)

  datatype Action =
    | EffectRuns(feedFresh: bool, ids: seq<Id>)
    | Reload
    | Press(p: Id, offline: bool)
    | Apply(p: Id)
    | Answer(p: Id)
    | FailUnapplied(p: Id)
    | LoseAnswer(p: Id)
    | ReadBatch(index: nat)
    | Install
    | ReadFails

  function Flip(s: set<Id>, p: Id): set<Id> {
    if p in s then s - {p} else s + {p}
  }

  function ServerStatus(liked: set<Id>, ids: seq<Id>): map<Id, bool> {
    map p | p in ids :: p in liked
  }

  function Land(s: System, p: Id, c: Client): System {
    s.(client := c, flights := s.flights - {p})
  }

  function Step(s: System, a: Action): System {
    var c := s.client;
    match a
    case EffectRuns(feedFresh, ids) => s.(client := Rerun(c, feedFresh, ids))
    case Reload => s.(client := Rerun(c.(generation := c.generation + 1), false, []))
    case Press(p, offline) =>
      if !CanLike(c, p, offline) then s else
        s.(client := c.(locked := c.locked + {p}), flights := s.flights[p := Sent(c.generation)])
    case Apply(p) =>
      if p !in s.flights || !s.flights[p].Sent? then s else
        s.(liked := Flip(s.liked, p), unseen := Flip(s.unseen, p),
           flights := s.flights[p := Applied(s.flights[p].generation, p !in s.liked)])
    case Answer(p) =>
      if p !in s.flights || !s.flights[p].Applied? then s else
        var f := s.flights[p];
        Land(s, p, Answered(c, p, f.generation, f.liked))
          .(unseen := if f.generation == c.generation then s.unseen - {p} else s.unseen)
    case FailUnapplied(p) =>
      if p !in s.flights || !s.flights[p].Sent? then s else Land(s, p, Failed(c, p))
    case LoseAnswer(p) =>
      if p !in s.flights || !s.flights[p].Applied? then s else Land(s, p, Failed(c, p))
    case ReadBatch(index) =>
      if c.read.None? || index >= BatchCount(c.read.value.ids) || index in c.read.value.pages then s else
        var r := c.read.value;
        var page := ServerStatus(s.liked, Batch(r.ids, index));
        s.(client := c.(read := Some(r.(pages := r.pages[index := page]))),
           unseen := if r.revision == c.revision then s.unseen - page.Keys else s.unseen)
    case Install => s.(client := Installed(c))
    case ReadFails => s.(client := c.(read := None))
  }

  function Run(s: System, actions: seq<Action>): System {
    if actions == [] then s else Step(Run(s, actions[..|actions| - 1]), actions[|actions| - 1])
  }

  /** The feed has just been opened; the account may have liked anything before. */
  ghost predicate Start(s: System) {
    s.client == Client(false, map[], {}, 0, 0, None) && s.flights == map[] && s.unseen == {}
  }

  /** The feed lists each post once. */
  predicate ListsOnce(a: Action) {
    a.EffectRuns? ==> forall i, j :: 0 <= i < j < |a.ids| ==> a.ids[i] != a.ids[j]
  }

  ghost predicate FlightsLocked(s: System) {
    && s.flights.Keys == s.client.locked
    && forall p :: p in s.flights && s.flights[p].Applied? ==> (s.flights[p].liked <==> p in s.liked)
  }

  /** A value is out of date exactly for the unseen posts: the ones shown, and the ones about to be. */
  ghost predicate Accurate(s: System, m: map<Id, bool>) {
    forall p :: p in m ==> ((m[p] <==> p in s.liked) <==> p !in s.unseen)
  }

  ghost predicate ReadAccurate(s: System) {
    s.client.read.Some? ==>
      var r := s.client.read.value;
      && NoDuplicates(r.ids)
      && r.revision <= s.client.revision
      && (forall i :: i in r.pages ==> i < BatchCount(r.ids) && r.pages[i].Keys == (set p | p in Batch(r.ids, i)))
      && (r.revision == s.client.revision ==>
            s.client.myLikes == map[] && forall i :: i in r.pages ==> Accurate(s, r.pages[i]))
  }

  ghost predicate Inv(s: System) {
    FlightsLocked(s) && Accurate(s, s.client.myLikes) && ReadAccurate(s)
  }

  lemma BatchesDisjoint(ids: seq<Id>, i: nat, j: nat, p: Id)
    requires NoDuplicates(ids) && p in Batch(ids, i) && p in Batch(ids, j)
    ensures i == j
  {
    assert Batch(ids, i) <= ids[Least(i * BATCH, |ids|)..];
    var k :| 0 <= k < |ids| && ids[k] == p;
    BatchesPartition(ids, k);
  }

  lemma ReadBatchKeepsInv(s: System, index: nat)
    requires Inv(s)
    ensures Inv(Step(s, ReadBatch(index)))
  {
    var t := Step(s, ReadBatch(index));
    if t != s && s.client.read.value.revision == s.client.revision {
      var r := t.client.read.value;
      forall i | i in r.pages ensures Accurate(t, r.pages[i]) {
        forall p | p in r.pages[i] ensures (r.pages[i][p] <==> p in t.liked) <==> p !in t.unseen {
          if i != index && p in Batch(r.ids, index) {
            BatchesDisjoint(r.ids, i, index, p);
          }
        }
      }
    }
  }

  lemma InstallKeepsInv(s: System)
    requires Inv(s)
    ensures Inv(Step(s, Install))
  {
    var t := Step(s, Install);
    forall p | p in t.client.myLikes ensures (t.client.myLikes[p] <==> p in t.liked) <==> p !in t.unseen {
      if t.client != s.client && s.client.read.value.revision == s.client.revision {
        AssignedComesFromPages(s.client.read.value.pages, BatchCount(s.client.read.value.ids), p);
      }
    }
  }

  lemma ApplyKeepsInv(s: System, p: Id)
    requires Inv(s)
    ensures Inv(Step(s, Apply(p)))
  {
  }

  lemma AnswerKeepsInv(s: System, p: Id)
    requires Inv(s)
    ensures Inv(Step(s, Answer(p)))
  {
  }

  lemma RerunKeepsInv(s: System, a: Action)
    requires Inv(s) && ListsOnce(a) && (a.EffectRuns? || a.Reload?)
    ensures Inv(Step(s, a))
  {
  }

  lemma LandingKeepsInv(s: System, a: Action)
    requires Inv(s) && (a.FailUnapplied? || a.LoseAnswer?)
    ensures Inv(Step(s, a))
  {
  }

  lemma StepKeepsInv(s: System, a: Action)
    requires Inv(s) && ListsOnce(a)
    ensures Inv(Step(s, a))
  {
    match a {
      case ReadBatch(index) => ReadBatchKeepsInv(s, index);
      case Install => InstallKeepsInv(s);
      case Apply(p) => ApplyKeepsInv(s, p);
      case Answer(p) => AnswerKeepsInv(s, p);
      case EffectRuns(_, _) => RerunKeepsInv(s, a);
      case Reload => RerunKeepsInv(s, a);
      case FailUnapplied(_) => LandingKeepsInv(s, a);
      case LoseAnswer(_) => LandingKeepsInv(s, a);
      case _ =>
    }
  }

  lemma {:induction false} RunKeepsInv(s: System, actions: seq<Action>)
    requires Start(s) && forall a :: a in actions ==> ListsOnce(a)
    ensures Inv(Run(s, actions))
  {
    if actions != [] {
      RunKeepsInv(s, actions[..|actions| - 1]);
      StepKeepsInv(Run(s, actions[..|actions| - 1]), actions[|actions| - 1]);
    }
  }

  // ---------------------------------------------------------------- what the client has not seen

  predicate Applies(s: System, a: Action, p: Id) {
    a == Apply(p) && p in s.flights && s.flights[p].Sent?
  }

  /** The client is given the server's value of the post, by the answer to a like or by a batch that counts. */
  predicate GivesValue(s: System, a: Action, p: Id) {
    || (a == Answer(p) && p in s.flights && s.flights[p].Applied? && s.flights[p].generation == s.client.generation)
    || (a.ReadBatch? && s.client.read.Some?
        && var r := s.client.read.value;
           a.index < BatchCount(r.ids) && a.index !in r.pages && r.revision == s.client.revision
           && p in Batch(r.ids, a.index))
  }

  /** The answer to an applied like is lost, or dropped because the feed was reloaded meanwhile. */
  predicate MissesAnswer(s: System, a: Action, p: Id) {
    && p in s.flights && s.flights[p].Applied?
    && (a == LoseAnswer(p) || (a == Answer(p) && s.flights[p].generation != s.client.generation))
  }

  /** How often the server has toggled the post since the client was last given its value. */
  function Toggles(s: System, actions: seq<Action>, p: Id): nat {
    if actions == [] then 0 else
      var before, a := actions[..|actions| - 1], actions[|actions| - 1];
      if GivesValue(Run(s, before), a, p) then 0
      else Toggles(s, before, p) + if Applies(Run(s, before), a, p) then 1 else 0
  }

  /** How many of those toggles had their answer lost or dropped. */
  function Missed(s: System, actions: seq<Action>, p: Id): nat {
    if actions == [] then 0 else
      var before, a := actions[..|actions| - 1], actions[|actions| - 1];
      if GivesValue(Run(s, before), a, p) then 0
      else Missed(s, before, p)
           + if MissesAnswer(Run(s, before), a, p) && Toggles(s, before, p) > Missed(s, before, p) then 1 else 0
  }

  lemma ParityStep(n: nat, unseen: bool, gives: bool, applies: bool)
    requires unseen <==> n % 2 == 1
    ensures (!gives && (applies <==> !unseen)) <==> (if gives then 0 else n + if applies then 1 else 0) % 2 == 1
  {
  }

  lemma {:induction false} UnseenIsParity(s: System, actions: seq<Action>, p: Id)
    requires Start(s)
    ensures p in Run(s, actions).unseen <==> Toggles(s, actions, p) % 2 == 1
  {
    if actions != [] {
      var before, a := actions[..|actions| - 1], actions[|actions| - 1];
      var t := Run(s, before);
      UnseenIsParity(s, before, p);
      StepTogglesUnseen(t, a, p);
      ParityStep(Toggles(s, before, p), p in t.unseen, GivesValue(t, a, p), Applies(t, a, p));
    }
  }

  lemma StepTogglesUnseen(s: System, a: Action, p: Id)
    ensures p in Step(s, a).unseen <==>
            !GivesValue(s, a, p) && (Applies(s, a, p) <==> p !in s.unseen)
  {
  }

  /** Of the toggles not seen, at most the one still in flight has not missed its answer. */
  lemma {:induction false} MissedOrInFlight(s: System, actions: seq<Action>, p: Id)
    requires Start(s) && forall a :: a in actions ==> ListsOnce(a)
    ensures var t := Run(s, actions);
            Toggles(s, actions, p) == Missed(s, actions, p)
            || (Toggles(s, actions, p) == Missed(s, actions, p) + 1 && p in t.flights && t.flights[p].Applied?)
  {
    if actions != [] {
      var before := actions[..|actions| - 1];
      RunKeepsInv(s, before);
      MissedOrInFlight(s, before, p);
      StaysInFlight(Run(s, before), actions[|actions| - 1], p);
    }
  }

  lemma StaysInFlight(s: System, a: Action, p: Id)
    requires FlightsLocked(s)
    ensures Applies(s, a, p) ==> p in Step(s, a).flights && Step(s, a).flights[p].Applied?
    ensures p in s.flights && s.flights[p].Applied? && !GivesValue(s, a, p) && !MissesAnswer(s, a, p)
            ==> p in Step(s, a).flights && Step(s, a).flights[p].Applied?
  {
  }

  /**
   In every run, reloads and lost answers included, a shown like is the server's if and only if the server has
   toggled the post an even number of times since it last gave the client its value.
   */
  lemma {:induction false} ShownLikeIsServersIff(s: System, actions: seq<Action>, p: Id)
    requires Start(s) && forall a :: a in actions ==> ListsOnce(a)
    requires p in Run(s, actions).client.myLikes
    ensures var t := Run(s, actions);
            (t.client.myLikes[p] <==> p in t.liked) <==> Toggles(s, actions, p) % 2 == 0
  {
    RunKeepsInv(s, actions);
    UnseenIsParity(s, actions, p);
  }

  /** Once the post is unlocked: if and only if an even number of likes since then had their answer lost or dropped. */
  lemma {:induction false} UnlockedLikeIsServersIff(s: System, actions: seq<Action>, p: Id)
    requires Start(s) && forall a :: a in actions ==> ListsOnce(a)
    requires p in Run(s, actions).client.myLikes && p !in Run(s, actions).client.locked
    ensures var t := Run(s, actions);
            (t.client.myLikes[p] <==> p in t.liked) <==> Missed(s, actions, p) % 2 == 0
  {
    RunKeepsInv(s, actions);
    ShownLikeIsServersIff(s, actions, p);
    MissedOrInFlight(s, actions, p);
  }

  lemma RunAppend(s: System, actions: seq<Action>, a: Action)
    ensures Run(s, actions + [a]) == Step(Run(s, actions), a)
  {
    assert (actions + [a])[..|actions|] == actions;
  }

  // ---------------------------------------------------------------- what is shown at all

  /** Away from `p` the two say the same. */
  predicate SameElsewhere(p: Id, a: map<Id, bool>, b: map<Id, bool>) {
    a - {p} == b - {p}
  }

  /** In every run, the answer to a like of the current generation is shown, is the server's, and unlocks the post. */
  lemma {:induction false} AnsweredLikeIsShown(s: System, actions: seq<Action>, p: Id)
    requires Start(s) && forall a :: a in actions ==> ListsOnce(a)
    requires var t := Run(s, actions);
             p in t.flights && t.flights[p].Applied? && t.flights[p].generation == t.client.generation
    ensures var t, u := Run(s, actions), Run(s, actions + [Answer(p)]);
            && p in u.client.myLikes && (u.client.myLikes[p] <==> p in u.liked)
            && SameElsewhere(p, u.client.myLikes, t.client.myLikes)
            && p !in u.client.locked && u.client.revision == t.client.revision + 1
  {
    RunKeepsInv(s, actions);
    RunAppend(s, actions, Answer(p));
  }

  /** An answer that a reload has overtaken, or none at all, unlocks the post and shows nothing new. */
  lemma {:induction false} MissedAnswerOnlyUnlocks(s: System, actions: seq<Action>, a: Action, p: Id)
    requires Start(s) && MissesAnswer(Run(s, actions), a, p)
    ensures var t, u := Run(s, actions), Run(s, actions + [a]);
            && u.client.myLikes == t.client.myLikes && u.client.revision == t.client.revision
            && u.client.locked == t.client.locked - {p}
  {
    RunAppend(s, actions, a);
  }

  /** A press locks the post and is on its way exactly on a current feed, online, with no like of it under way. */
  lemma {:induction false} PressSendsIff(s: System, actions: seq<Action>, p: Id, offline: bool)
    requires Start(s) && forall a :: a in actions ==> ListsOnce(a)
    ensures var t, u := Run(s, actions), Run(s, actions + [Press(p, offline)]);
            && (u != t <==> t.client.feedFresh && !offline && p !in t.client.locked)
            && (u != t ==> u.flights == t.flights[p := Sent(t.client.generation)]
                           && u.client.locked == t.client.locked + {p} && u.client.myLikes == t.client.myLikes)
  {
    RunKeepsInv(s, actions);
    RunAppend(s, actions, Press(p, offline));
  }

  /** In every run, a complete read under its own revision shows, for every post it asked about, what its batch answered. */
  lemma {:induction false} CompleteReadShowsAll(s: System, actions: seq<Action>, k: nat)
    requires Start(s) && forall a :: a in actions ==> ListsOnce(a)
    requires Run(s, actions).client.read.Some? && k < |Run(s, actions).client.read.value.ids|
    requires forall index :: 0 <= index < BatchCount(Run(s, actions).client.read.value.ids)
               ==> index in Run(s, actions).client.read.value.pages
    requires Run(s, actions).client.read.value.revision == Run(s, actions).client.revision
    ensures var r := Run(s, actions).client.read.value;
            var shown := Run(s, actions + [Install]).client.myLikes;
            var own := k / 50;
            && own in r.pages && r.ids[k] in r.pages[own]
            && r.ids[k] in shown && shown[r.ids[k]] == r.pages[own][r.ids[k]]
  {
    RunKeepsInv(s, actions);
    RunAppend(s, actions, Install);
    InstallShowsAll(Run(s, actions), k);
  }

  lemma InstallShowsAll(s: System, k: nat)
    requires ReadAccurate(s) && s.client.read.Some? && k < |s.client.read.value.ids|
    requires Complete(s.client.read.value) && s.client.read.value.revision == s.client.revision
    ensures var r := s.client.read.value;
            var shown, own := Installed(s.client).myLikes, k / 50;
            && own in r.pages && r.ids[k] in r.pages[own]
            && r.ids[k] in shown && shown[r.ids[k]] == r.pages[own][r.ids[k]]
  {
    var r := s.client.read.value;
    BatchesPartition(r.ids, k);
    AssignedIsOwnBatch(r.ids, r.pages, k);
  }

  /** A read that a confirmed like has overtaken shows nothing. */
  lemma {:induction false} OvertakenReadShowsNothing(s: System, actions: seq<Action>)
    requires Run(s, actions).client.read.Some?
    requires Run(s, actions).client.read.value.revision != Run(s, actions).client.revision
    ensures Run(s, actions + [Install]).client.myLikes == Run(s, actions).client.myLikes
  {
    RunAppend(s, actions, Install);
  }

  /** One generation in which every like is answered, or fails without reaching the server. */
  predicate Reliable(a: Action) {
    !a.Reload? && !a.LoseAnswer?
  }

  lemma {:induction false} UnseenAreInFlight(s: System, actions: seq<Action>)
    requires Start(s) && forall a :: a in actions ==> ListsOnce(a) && Reliable(a)
    ensures var t := Run(s, actions);
            && t.client.generation == 0
            && (forall p :: p in t.flights ==> t.flights[p].generation == 0)
            && (forall p :: p in t.unseen ==> p in t.flights && t.flights[p].Applied?)
  {
    if actions != [] {
      RunKeepsInv(s, actions[..|actions| - 1]);
      UnseenAreInFlight(s, actions[..|actions| - 1]);
      assert Reliable(actions[|actions| - 1]);
    }
  }

  /** Reconciliation: then every post that is not locked and has a known like shows the server's. */
  lemma {:induction false} LikesReconcile(s: System, actions: seq<Action>, p: Id)
    requires Start(s) && forall a :: a in actions ==> ListsOnce(a) && Reliable(a)
    requires p in Run(s, actions).client.myLikes && p !in Run(s, actions).client.locked
    ensures var t := Run(s, actions); t.client.myLikes[p] <==> p in t.liked
  {
    RunKeepsInv(s, actions);
    UnseenAreInFlight(s, actions);
  }

  /** The failing family: a post is shown wrongly, unlocked, with nothing in flight. */
  ghost predicate ShownWrongly(t: System, p: Id) {
    p in t.client.myLikes && t.client.locked == {} && t.flights == map[] && (t.client.myLikes[p] <==> p !in t.liked)
  }

  /** A feed of one post that the account has not liked: its only page. */
  lemma OnePost()
    ensures BatchCount(["p"]) == 1 && Batch(["p"], 0) == ["p"]
    ensures ServerStatus({}, Batch(["p"], 0)) == map["p" := false]
    ensures Assigned(map[0 := map["p" := false]], 1) == map["p" := false]
  {
    assert Batch(["p"], 0) == ["p"];
    assert Assigned(map[0 := map["p" := false]], 0) == map[];
  }

  const Unread := Some(StatusRead(["p"], 0, map[]))
  const ReadUnliked := Some(StatusRead(["p"], 0, map[0 := map["p" := false]]))

  lemma Opens(s: System)
    requires Start(s) && s.liked == {}
    ensures Run(s, [EffectRuns(true, ["p"])]) == System(Client(true, map[], {}, 0, 0, Unread), {}, map[], {})
  {
    RunAppend(s, [], EffectRuns(true, ["p"]));
    assert [] + [EffectRuns(true, ["p"])] == [EffectRuns(true, ["p"])];
  }

  lemma ShowsUnliked(s: System) returns (actions: seq<Action>)
    requires Start(s) && s.liked == {}
    ensures forall a :: a in actions ==> ListsOnce(a) && !a.Reload?
    ensures Run(s, actions) == System(Client(true, map["p" := false], {}, 0, 0, None), {}, map[], {})
  {
    OnePost();
    Opens(s);
    actions := [EffectRuns(true, ["p"])];
    RunAppend(s, actions, ReadBatch(0));
    actions := actions + [ReadBatch(0)];
    assert Run(s, actions) == System(Client(true, map[], {}, 0, 0, ReadUnliked), {}, map[], {});
    RunAppend(s, actions, Install);
    actions := actions + [Install];
  }

  /** A like that the server applied and whose answer is lost leaves the old value on the screen. */
  lemma LostAnswerShowsWrongly(s: System)
    requires Start(s) && s.liked == {}
    ensures exists actions ::
      (forall a :: a in actions ==> ListsOnce(a) && !a.Reload?) && ShownWrongly(Run(s, actions), "p")
  {
    var actions := ShowsUnliked(s);
    RunAppend(s, actions, Press("p", false));
    actions := actions + [Press("p", false)];
    assert Run(s, actions) == System(Client(true, map["p" := false], {"p"}, 0, 0, None), {}, map["p" := Sent(0)], {});
    RunAppend(s, actions, Apply("p"));
    actions := actions + [Apply("p")];
    assert Run(s, actions) ==
           System(Client(true, map["p" := false], {"p"}, 0, 0, None), {"p"}, map["p" := Applied(0, true)], {"p"});
    RunAppend(s, actions, LoseAnswer("p"));
    assert ShownWrongly(Run(s, actions + [LoseAnswer("p")]), "p");
  }

  lemma LikedBeforeReload(s: System) returns (actions: seq<Action>)
    requires Start(s) && s.liked == {}
    ensures forall a :: a in actions ==> ListsOnce(a) && !a.LoseAnswer?
    ensures Run(s, actions) == System(Client(true, map[], {"p"}, 0, 1, Unread), {}, map["p" := Sent(0)], {})
  {
    Opens(s);
    actions := [EffectRuns(true, ["p"])];
    RunAppend(s, actions, Press("p", false));
    actions := actions + [Press("p", false)];
    assert Run(s, actions) == System(Client(true, map[], {"p"}, 0, 0, Unread), {}, map["p" := Sent(0)], {});
    RunAppend(s, actions, Reload);
    actions := actions + [Reload];
    RunAppend(s, actions, EffectRuns(true, ["p"]));
    actions := actions + [EffectRuns(true, ["p"])];
  }

  lemma AnswerDropped(s: System, before: seq<Action>)
    requires Run(s, before) == System(Client(true, map[], {"p"}, 0, 1, Unread), {}, map["p" := Sent(0)], {})
    ensures Run(s, before + [ReadBatch(0)] + [Apply("p")] + [Answer("p")]) ==
            System(Client(true, map[], {}, 0, 1, ReadUnliked), {"p"}, map[], {"p"})
  {
    OnePost();
    var a1 := before + [ReadBatch(0)];
    RunAppend(s, before, ReadBatch(0));
    assert Run(s, a1) == System(Client(true, map[], {"p"}, 0, 1, ReadUnliked), {}, map["p" := Sent(0)], {});
    RunAppend(s, a1, Apply("p"));
    var a2 := a1 + [Apply("p")];
    assert Run(s, a2) == System(Client(true, map[], {"p"}, 0, 1, ReadUnliked), {"p"}, map["p" := Applied(0, true)], {"p"});
    RunAppend(s, a2, Answer("p"));
  }

  /** A reload while a like is in flight drops its answer, and a status read from before it is shown. */
  lemma ReloadInFlightShowsWrongly(s: System)
    requires Start(s) && s.liked == {}
    ensures exists actions ::
      (forall a :: a in actions ==> ListsOnce(a) && !a.LoseAnswer?) && ShownWrongly(Run(s, actions), "p")
  {
    OnePost();
    var before := LikedBeforeReload(s);
    AnswerDropped(s, before);
    var actions := before + [ReadBatch(0)] + [Apply("p")] + [Answer("p")];
    RunAppend(s, actions, Install);
    assert ShownWrongly(Run(s, actions + [Install]), "p");
  }
}
