/**
 Buying a cosmetic: one purchase at a time, under a key that is kept until an answer arrives, against a
 server that applies each key at most once and a network that may lose, delay or repeat requests.
 */
module Purchases {
  import opened Common

  type OfferId = string
  type Key = string

  datatype Shop = Shop(busyId: Option<OfferId>, pending: map<OfferId, Key>)

  const Opened := Shop(None, map[])

  /** `newKey` stands for `purchaseKey`, whose clock and random digits never repeat a key. */
  function KeyFor(s: Shop, offer: OfferId, newKey: Key): Key {
    if offer in s.pending then s.pending[offer] else newKey
  }

  function Begun(s: Shop, offer: OfferId, newKey: Key): Shop {
    if s.busyId.Some? then s else Shop(Some(offer), s.pending[offer := KeyFor(s, offer, newKey)])
  }

  function Bought(s: Shop, offer: OfferId): Shop {
    Shop(None, s.pending - {offer})
  }

  function BuyFailed(s: Shop): Shop {
    s.(busyId := None)
  }

  class CosmeticsMarketplace {
    var busyId: Option<OfferId>
    var pendingPurchases: map<OfferId, Key>

    function State(): Shop
      reads this
    {
      Shop(busyId, pendingPurchases)
    }

    constructor ()
      ensures State() == Opened
      ensures busyId == None && pendingPurchases == map[]
    {
      busyId, pendingPurchases := None, map[];
    }

    /** First half of `buy`: the key that goes with the request, unless another purchase is under way. */
    method BeginBuy(offer: OfferId, newKey: Key) returns (key: Option<Key>)
      modifies this
      ensures key.Some? <==> old(busyId).None?
      ensures key.Some? ==> key.value == KeyFor(old(State()), offer, newKey) && offer in pendingPurchases
      ensures State() == Begun(old(State()), offer, newKey)
      ensures key.None? ==> State() == old(State())
      ensures key.Some? ==>
        && busyId == Some(offer) && pendingPurchases == old(pendingPurchases)[offer := key.value]
        && key.value == if offer in old(pendingPurchases) then old(pendingPurchases)[offer] else newKey
    {
      if busyId.Some? {
        return None;
      }
      busyId := Some(offer);
      var k := if offer in pendingPurchases then pendingPurchases[offer] else newKey;
      pendingPurchases := pendingPurchases[offer := k];
      key := Some(k);
    }

    method BuyAnswered(offer: OfferId)
      modifies this
      ensures State() == Bought(old(State()), offer)
      ensures busyId == None && pendingPurchases == old(pendingPurchases) - {offer}
    {
      pendingPurchases := pendingPurchases - {offer};
      busyId := None;
    }

    method BuyThrew()
      modifies this
      ensures State() == BuyFailed(old(State()))
      ensures busyId == None && pendingPurchases == old(pendingPurchases)
    {
      busyId := None;
    }
  }

  // ---------------------------------------------------------------- against the server

  datatype Request = Request(offer: OfferId, key: Key)

  /**
   `sent` keeps every request, for the server may receive one late or again; `debited` is what it has
   charged for, each key once; `confirmed` lists the success answers that the client received. `abandoned`
   is auxiliary: the requests whose pending key was forgotten because the screen was left.
   */
  datatype System = System(
    shop: Shop, sent: set<Request>, debited: set<Request>, confirmed: seq<Request>, abandoned: set<Request>)

  datatype Action =
    | Buy(offer: OfferId, newKey: Key)
    | Charge(r: Request)
    | Answer
    | Fail
    | Reopen

  predicate IsPending(s: Shop, r: Request) {
    r.offer in s.pending && s.pending[r.offer] == r.key
  }

  function Pending(s: System): set<Request> {
    set r | r in s.sent && IsPending(s.shop, r)
  }

  function Step(s: System, a: Action): System {
    match a
    case Buy(offer, newKey) =>
      if s.shop.busyId.Some? || exists r :: r in s.sent && r.key == newKey then s else
        s.(shop := Begun(s.shop, offer, newKey), sent := s.sent + {Request(offer, KeyFor(s.shop, offer, newKey))})
    case Charge(r) => if r in s.sent then s.(debited := s.debited + {r}) else s
    case Answer =>
      if s.shop.busyId.None? || s.shop.busyId.value !in s.shop.pending then s else
        var r := Request(s.shop.busyId.value, s.shop.pending[s.shop.busyId.value]);
        if r !in s.debited then s else s.(shop := Bought(s.shop, r.offer), confirmed := s.confirmed + [r])
    case Fail => if s.shop.busyId.None? then s else s.(shop := BuyFailed(s.shop))
    case Reopen => s.(shop := Opened, abandoned := s.abandoned + Pending(s))
  }

  function Run(actions: seq<Action>): System {
    if actions == [] then System(Opened, {}, {}, [], {}) else
      Step(Run(actions[..|actions| - 1]), actions[|actions| - 1])
  }

  /** The requests for one offer; as each carries its own key, each debit among them is a charge of its own. */
  function For(rs: set<Request>, offer: OfferId): set<Request> {
    set r | r in rs && r.offer == offer
  }

  function AnswersFor(confirmed: seq<Request>, offer: OfferId): nat {
    if confirmed == [] then 0 else
      AnswersFor(confirmed[..|confirmed| - 1], offer) + if confirmed[|confirmed| - 1].offer == offer then 1 else 0
  }

  function Elements(rs: seq<Request>): set<Request> {
    set r | r in rs
  }

  ghost predicate Inv(s: System) {
    && s.debited <= s.sent
    && Elements(s.confirmed) <= s.debited
    && NoDuplicates(s.confirmed)
    && s.sent == Elements(s.confirmed) + s.abandoned + Pending(s)
    && Elements(s.confirmed) !! s.abandoned
    && (Elements(s.confirmed) + s.abandoned) !! Pending(s)
    && (forall offer :: offer in s.shop.pending ==> Request(offer, s.shop.pending[offer]) in s.sent)
    && (forall q, r :: q in s.sent && r in s.sent && q.key == r.key ==> q == r)
  }

  lemma BuyKeepsInv(s: System, offer: OfferId, newKey: Key)
    requires Inv(s)
    ensures Inv(Step(s, Buy(offer, newKey)))
  {
    var t := Step(s, Buy(offer, newKey));
    if t != s {
      var r := Request(offer, KeyFor(s.shop, offer, newKey));
      assert Pending(t) == Pending(s) + {r};
    }
  }

  lemma AnswerKeepsInv(s: System)
    requires Inv(s)
    ensures Inv(Step(s, Answer))
  {
    var t := Step(s, Answer);
    if t != s {
      var r := t.confirmed[|s.confirmed|];
      assert Pending(t) == Pending(s) - {r};
      assert Elements(t.confirmed) == Elements(s.confirmed) + {r};
    }
  }

  lemma {:induction false} RunKeepsInv(actions: seq<Action>)
    ensures Inv(Run(actions))
  {
    if actions != [] {
      var s, a := Run(actions[..|actions| - 1]), actions[|actions| - 1];
      RunKeepsInv(actions[..|actions| - 1]);
      match a {
        case Buy(offer, newKey) => BuyKeepsInv(s, offer, newKey);
        case Answer => AnswerKeepsInv(s);
        case Reopen => assert Pending(Step(s, a)) == {};
        case _ =>
      }
    }
  }

  lemma {:induction false} AnswersAreRequests(confirmed: seq<Request>, offer: OfferId)
    requires NoDuplicates(confirmed)
    ensures AnswersFor(confirmed, offer) == |For(Elements(confirmed), offer)|
  {
    if confirmed != [] {
      var init, last := confirmed[..|confirmed| - 1], confirmed[|confirmed| - 1];
      assert NoDuplicates(init) && last !in init;
      AnswersAreRequests(init, offer);
      assert Elements(confirmed) == Elements(init) + {last};
      if last.offer == offer {
        assert For(Elements(confirmed), offer) == For(Elements(init), offer) + {last};
      } else {
        assert For(Elements(confirmed), offer) == For(Elements(init), offer);
      }
    }
  }

  function PendingCharges(s: System, offer: OfferId): nat {
    if offer in s.shop.pending && Request(offer, s.shop.pending[offer]) in s.debited then 1 else 0
  }

  lemma CountParts(debited: set<Request>, answered: set<Request>, lost: set<Request>, open: set<Request>, offer: OfferId)
    requires debited == answered + lost + open
    requires answered !! lost && (answered + lost) !! open
    ensures |For(debited, offer)| == |For(answered, offer)| + |For(lost, offer)| + |For(open, offer)|
  {
    assert For(debited, offer) == For(answered, offer) + For(lost, offer) + For(open, offer);
  }

  lemma PendingIsOne(s: System, offer: OfferId)
    requires Inv(s)
    ensures |For(s.debited * Pending(s), offer)| == PendingCharges(s, offer)
  {
    if PendingCharges(s, offer) == 1 {
      assert For(s.debited * Pending(s), offer) == {Request(offer, s.shop.pending[offer])};
    } else {
      assert For(s.debited * Pending(s), offer) == {};
    }
  }

  /** Conservation: each charge for an offer is an answer received, the pending key, or an abandoned one. */
  lemma {:induction false} DebitsAccountedFor(actions: seq<Action>, offer: OfferId)
    ensures var t := Run(actions);
            |For(t.debited, offer)| ==
            AnswersFor(t.confirmed, offer) + PendingCharges(t, offer) + |For(t.debited * t.abandoned, offer)|
  {
    RunKeepsInv(actions);
    var t := Run(actions);
    AnswersAreRequests(t.confirmed, offer);
    PendingIsOne(t, offer);
    CountParts(t.debited, Elements(t.confirmed), t.debited * t.abandoned, t.debited * Pending(t), offer);
  }

  /** The screen is never left while the offer has a pending key. */
  predicate LeavesNothingPending(actions: seq<Action>, offer: OfferId) {
    actions == [] ||
    var before := actions[..|actions| - 1];
    && LeavesNothingPending(before, offer)
    && (actions[|actions| - 1].Reopen? ==> offer !in Run(before).shop.pending)
  }

  /** At most one charge for each answer, and one more while a key is pending. */
  predicate DebitsBounded(s: System, offer: OfferId) {
    |For(s.debited, offer)| <= AnswersFor(s.confirmed, offer) + if offer in s.shop.pending then 1 else 0
  }

  lemma AbandonedGrows(s: System, a: Action, offer: OfferId)
    ensures For(s.abandoned, offer) <= For(Step(s, a).abandoned, offer)
  {
  }

  /** A request for the offer is abandoned exactly when the screen was left with its key pending. */
  lemma {:induction false} AbandonedIff(actions: seq<Action>, offer: OfferId)
    ensures For(Run(actions).abandoned, offer) == {} <==> LeavesNothingPending(actions, offer)
  {
    if actions != [] {
      var before, a := actions[..|actions| - 1], actions[|actions| - 1];
      var s := Run(before);
      AbandonedIff(before, offer);
      AbandonedGrows(s, a, offer);
      if a.Reopen? {
        RunKeepsInv(before);
        if offer in s.shop.pending {
          assert Request(offer, s.shop.pending[offer]) in For(Run(actions).abandoned, offer);
        } else {
          assert For(Run(actions).abandoned, offer) == For(s.abandoned, offer);
        }
      }
    }
  }

  /** While that is so, the charges lie between the answers received and one more if a key is pending. */
  lemma {:induction false} AtMostOnceDebit(actions: seq<Action>, offer: OfferId)
    requires LeavesNothingPending(actions, offer)
    ensures AnswersFor(Run(actions).confirmed, offer) <= |For(Run(actions).debited, offer)|
    ensures DebitsBounded(Run(actions), offer)
  {
    DebitsAccountedFor(actions, offer);
    AbandonedIff(actions, offer);
    var t := Run(actions);
    assert For(t.debited * t.abandoned, offer) <= For(t.abandoned, offer);
  }

  ghost predicate OnlyCharges(more: seq<Action>) {
    forall a :: a in more ==> a.Charge?
  }

  lemma {:induction false} ChargesLeaveNothing(actions: seq<Action>, more: seq<Action>, offer: OfferId)
    requires LeavesNothingPending(actions, offer) && OnlyCharges(more)
    ensures LeavesNothingPending(actions + more, offer)
  {
    if more == [] {
      assert actions + more == actions;
    } else {
      ChargesLeaveNothing(actions, more[..|more| - 1], offer);
      assert (actions + more)[..|actions + more| - 1] == actions + more[..|more| - 1];
      assert more[|more| - 1] in more;
    }
  }

  /** After the screen was left with a key pending, one or two late requests are charges too many. */
  lemma LateChargesExceed(actions: seq<Action>, offer: OfferId) returns (more: seq<Action>)
    requires !LeavesNothingPending(actions, offer)
    ensures OnlyCharges(more) && |more| <= 2 && !DebitsBounded(Run(actions + more), offer)
  {
    RunKeepsInv(actions);
    AbandonedIff(actions, offer);
    var s := Run(actions);
    var lost :| lost in For(s.abandoned, offer);
    var pending := if offer in s.shop.pending then Request(offer, s.shop.pending[offer]) else lost;
    more := [Charge(lost), Charge(pending)];
    RunAppend(actions, Charge(lost));
    RunAppend(actions + [Charge(lost)], Charge(pending));
    assert actions + more == actions + [Charge(lost)] + [Charge(pending)];
    var t := Run(actions + more);
    assert t == s.(debited := s.debited + {lost, pending});
    assert lost in For(t.debited * t.abandoned, offer);
    DebitsAccountedFor(actions + more, offer);
    assert offer in t.shop.pending ==> PendingCharges(t, offer) == 1;
  }

  /**
   Whatever late requests the server still receives, the charges for an offer stay bounded if and only if the
   screen was never left while that offer had a pending key.
   */
  lemma {:induction false} DebitsStayBoundedIff(actions: seq<Action>, offer: OfferId)
    ensures (forall more :: OnlyCharges(more) ==> DebitsBounded(Run(actions + more), offer))
            <==> LeavesNothingPending(actions, offer)
  {
    if LeavesNothingPending(actions, offer) {
      forall more | OnlyCharges(more) ensures DebitsBounded(Run(actions + more), offer) {
        ChargesLeaveNothing(actions, more, offer);
        AtMostOnceDebit(actions + more, offer);
      }
    } else {
      var more := LateChargesExceed(actions, offer);
      assert OnlyCharges(more);
    }
  }

  /** Seen before leaving: that is safe for an offer if and only if it has no pending key. */
  lemma {:induction false} LeavingIsSafeIff(before: seq<Action>, offer: OfferId)
    requires LeavesNothingPending(before, offer)
    ensures (forall r :: DebitsBounded(Run(before + [Reopen] + [Charge(r)]), offer))
            <==> offer !in Run(before).shop.pending
  {
    var left := before + [Reopen];
    assert left[..|before|] == before;
    if offer !in Run(before).shop.pending {
      forall r ensures DebitsBounded(Run(left + [Charge(r)]), offer) {
        ChargesLeaveNothing(left, [Charge(r)], offer);
        AtMostOnceDebit(left + [Charge(r)], offer);
      }
    } else {
      RunKeepsInv(before);
      var s, r := Run(before), Request(offer, Run(before).shop.pending[offer]);
      RunAppend(before, Reopen);
      RunAppend(left, Charge(r));
      var t := Run(left + [Charge(r)]);
      DebitsAccountedFor(left + [Charge(r)], offer);
      assert r in For(t.debited * t.abandoned, offer);
      assert !DebitsBounded(t, offer);
    }
  }

  lemma RunAppend(actions: seq<Action>, a: Action)
    ensures Run(actions + [a]) == Step(Run(actions), a)
  {
    assert (actions + [a])[..|actions|] == actions;
  }

  /** The key does not occur in any request so far, as a new one never does. */
  predicate IsNew(s: System, key: Key) {
    forall r :: r in s.sent ==> r.key != key
  }

  /** In every run, after a failure the same offer is bought again under the key of the first try. */
  lemma {:induction false} RetrySendsSameKey(actions: seq<Action>, offer: OfferId, newKey: Key)
    requires Run(actions).shop.busyId == Some(offer) && offer in Run(actions).shop.pending
    requires IsNew(Run(actions), newKey)
    ensures var t := Run(actions);
            var failed, retried := Run(actions + [Fail]), Run(actions + [Fail] + [Buy(offer, newKey)]);
            && failed.shop.busyId == None && failed.shop.pending == t.shop.pending
            && retried.shop.busyId == Some(offer) && retried.shop.pending == t.shop.pending
            && retried.sent == t.sent
  {
    RunKeepsInv(actions);
    RunAppend(actions, Fail);
    RunAppend(actions + [Fail], Buy(offer, newKey));
  }

  /** After an answer the shop is free, and the next purchase of the offer has a key of its own. */
  lemma {:induction false} NextPurchaseHasNewKey(actions: seq<Action>, offer: OfferId, newKey: Key)
    requires var t := Run(actions); t.shop.busyId == Some(offer) && offer in t.shop.pending
                                    && Request(offer, t.shop.pending[offer]) in t.debited
    requires IsNew(Run(actions), newKey)
    ensures var t := Run(actions);
            var answered, again := Run(actions + [Answer]), Run(actions + [Answer] + [Buy(offer, newKey)]);
            && answered.shop.busyId == None && offer !in answered.shop.pending
            && answered.confirmed == t.confirmed + [Request(offer, t.shop.pending[offer])]
            && again.shop.busyId == Some(offer) && again.sent == t.sent + {Request(offer, newKey)}
  {
    RunAppend(actions, Answer);
    RunAppend(actions + [Answer], Buy(offer, newKey));
  }

  lemma LeavingAfterLostAnswer(offer: OfferId) returns (actions: seq<Action>)
    ensures Run(actions) == System(Opened, {Request(offer, "1")}, {Request(offer, "1")}, [], {Request(offer, "1")})
  {
    var q := Request(offer, "1");
    RunAppend([], Buy(offer, "1"));
    actions := [] + [Buy(offer, "1")];
    assert Run(actions) == System(Shop(Some(offer), map[offer := "1"]), {q}, {}, [], {});
    RunAppend(actions, Charge(q));
    actions := actions + [Charge(q)];
    assert Pending(Run(actions)) == {q};
    RunAppend(actions, Reopen);
    actions := actions + [Reopen];
  }

  /** Leaving the screen after a lost answer forgets the key: one purchase answered, two charged, none pending. */
  lemma ReopeningCanDebitTwice(offer: OfferId) returns (actions: seq<Action>)
    ensures var t := Run(actions);
            t.shop.pending == map[] && |For(t.debited, offer)| == 2 && AnswersFor(t.confirmed, offer) == 1
  {
    var q, r := Request(offer, "1"), Request(offer, "2");
    actions := LeavingAfterLostAnswer(offer);
    RunAppend(actions, Buy(offer, "2"));
    actions := actions + [Buy(offer, "2")];
    assert Run(actions) == System(Shop(Some(offer), map[offer := "2"]), {q, r}, {q}, [], {q}) by {
      assert q.key[0] != r.key[0];
    }
    RunAppend(actions, Charge(r));
    actions := actions + [Charge(r)];
    RunAppend(actions, Answer);
    actions := actions + [Answer];
    assert Run(actions) == System(Opened, {q, r}, {q, r}, [r], {q});
    OneAnswerTwoCharges(offer, "1", "2");
  }

  lemma OneAnswerTwoCharges(offer: OfferId, first: Key, second: Key)
    requires first != second
    ensures var q, r := Request(offer, first), Request(offer, second);
            |For({q, r}, offer)| == 2 && AnswersFor([r], offer) == 1
  {
    var q, r := Request(offer, first), Request(offer, second);
    assert For({q, r}, offer) == {q, r} && q != r;
    assert [r][..0] == [] && AnswersFor([], offer) == 0;
  }
}
