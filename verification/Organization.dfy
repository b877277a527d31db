/**
 The organisation panel of Messages: any number of overlapping loads, each in two awaited stages and
 guarded by a generation counter, with the account or the panel changing at any moment.
 */
module Organization {
  import opened Common

  type UserId = string

  /** A conversation as the server lists it to the account that asks. */
  datatype Conversation = Conversation(member: UserId, id: string)

  /** A settled request for a personal collection, with the number of its items. */
  datatype Result = Fulfilled(items: nat) | Rejected

  /** What the four requests settled as. */
  datatype Results = Results(folders: Result, archives: Result, pins: Result, drafts: Result)

  /** A personal count is null when its request was rejected. */
  datatype Overview = Overview(
    conversations: nat, folders: Option<nat>, archives: Option<nat>, pins: Option<nat>, drafts: Option<nat>)

  function CountItems(r: Result): Option<nat> {
    if r.Fulfilled? then Some(r.items) else None
  }

  datatype Panel = Panel(
    userId: UserId, open: bool, generation: nat,
    conversations: seq<Conversation>, overview: Option<Overview>, overviewWarning: bool, loading: bool, failed: bool)

  function Blank(userId: UserId, open: bool, generation: nat): Panel {
    Panel(userId, open, generation, [], None, false, false, false)
  }

  predicate SomeRejected(r: Results) {
    r.folders.Rejected? || r.archives.Rejected? || r.pins.Rejected? || r.drafts.Rejected?
  }

  function OverviewOf(data: seq<Conversation>, r: Results): Overview {
    Overview(|data|, CountItems(r.folders), CountItems(r.archives), CountItems(r.pins), CountItems(r.drafts))
  }

  /** The overview says of each collection what its own request answered. */
  predicate Reports(o: Overview, data: seq<Conversation>, r: Results) {
    && o.conversations == |data|
    && o.folders == (match r.folders case Fulfilled(n) => Some(n) case Rejected => None)
    && o.archives == (match r.archives case Fulfilled(n) => Some(n) case Rejected => None)
    && o.pins == (match r.pins case Fulfilled(n) => Some(n) case Rejected => None)
    && o.drafts == (match r.drafts case Fulfilled(n) => Some(n) case Rejected => None)
  }

  function Began(p: Panel): Panel {
    Blank(p.userId, p.open, p.generation + 1).(loading := true)
  }

  function Listed(p: Panel, generation: nat, data: seq<Conversation>): Panel {
    if generation != p.generation then p else p.(conversations := data)
  }

  function Counted(p: Panel, generation: nat, data: seq<Conversation>, results: Results): Panel {
    if generation != p.generation then p else
      p.(overview := Some(OverviewOf(data, results)),
         overviewWarning := p.overviewWarning || SomeRejected(results), loading := false)
  }

  function Threw(p: Panel, generation: nat): Panel {
    if generation != p.generation then p else
      Blank(p.userId, p.open, p.generation).(failed := true)
  }

  /** The effect on the account and the panel: everything is dropped, and an open panel loads again. */
  function Switched(p: Panel, userId: UserId, open: bool): Panel {
    var cleared := Blank(userId, open, p.generation + 1);
    if open then Began(cleared) else cleared
  }

  class MessagesOrganization {
    var userId: UserId
    var organizationOpen: bool
    var authorityGeneration: nat
    var conversations: seq<Conversation>
    var overview: Option<Overview>
    var overviewWarning: bool
    var loading: bool
    var failed: bool

    function State(): Panel
      reads this
    {
      Panel(userId, organizationOpen, authorityGeneration, conversations, overview, overviewWarning, loading, failed)
    }

    constructor (userId: UserId)
      ensures State() == Blank(userId, false, 0)
      ensures this.userId == userId && !organizationOpen && authorityGeneration == 0 && conversations == []
      ensures overview == None && !overviewWarning && !loading && !failed
    {
      this.userId, organizationOpen, authorityGeneration := userId, false, 0;
      conversations, overview, overviewWarning, loading, failed := [], None, false, false, false;
    }

    method BeginLoad() returns (generation: nat)
      modifies this
      ensures State() == Began(old(State())) && generation == authorityGeneration == old(authorityGeneration) + 1
      ensures loading && conversations == [] && overview == None && !overviewWarning && !failed
      ensures userId == old(userId) && organizationOpen == old(organizationOpen)
    {
      authorityGeneration := authorityGeneration + 1;
      generation := authorityGeneration;
      loading := true;
      failed := false;
      overviewWarning := false;
      conversations := [];
      overview := None;
    }

    method ConversationsAnswered(generation: nat, data: seq<Conversation>) returns (goOn: bool)
      modifies this
      ensures State() == Listed(old(State()), generation, data)
      ensures goOn <==> generation == old(authorityGeneration)
      ensures conversations == if goOn then data else old(conversations)
      ensures overview == old(overview) && loading == old(loading) && authorityGeneration == old(authorityGeneration)
    {
      if generation != authorityGeneration {
        return false;
      }
      conversations := data;
      goOn := true;
    }

    method CountsSettled(generation: nat, data: seq<Conversation>, results: Results)
      modifies this
      ensures State() == Counted(old(State()), generation, data, results)
      ensures generation == old(authorityGeneration) ==>
                && overview.Some? && Reports(overview.value, data, results) && !loading
                && (overviewWarning <==> old(overviewWarning) || results.folders.Rejected? || results.archives.Rejected?
                                         || results.pins.Rejected? || results.drafts.Rejected?)
      ensures conversations == old(conversations) && authorityGeneration == old(authorityGeneration)
    {
      if generation != authorityGeneration {
        return;
      }
      overview := Some(Overview(|data|, CountItems(results.folders), CountItems(results.archives),
                                CountItems(results.pins), CountItems(results.drafts)));
      if SomeRejected(results) {
        overviewWarning := true;
      }
      loading := false;
    }

    /** The catch: the list did not arrive, or a count that did arrive has no items to count. */
    method LoadThrew(generation: nat)
      modifies this
      ensures State() == Threw(old(State()), generation)
      ensures generation == old(authorityGeneration) ==>
                conversations == [] && overview == None && !overviewWarning && failed && !loading
      ensures generation != old(authorityGeneration) ==> State() == old(State())
    {
      if generation != authorityGeneration {
        return;
      }
      conversations := [];
      overview := None;
      overviewWarning := false;
      failed := true;
      loading := false;
    }

    method SwitchEffect(newUser: UserId, open: bool)
      modifies this
      ensures State() == Switched(old(State()), newUser, open)
      ensures userId == newUser && organizationOpen == open && authorityGeneration > old(authorityGeneration)
      ensures conversations == [] && overview == None && !overviewWarning && !failed && loading == open
    {
      userId, organizationOpen := newUser, open;
      authorityGeneration := authorityGeneration + 1;
      conversations := [];
      overview := None;
      overviewWarning := false;
      failed := false;
      loading := false;
      if open {
        var _ := BeginLoad();
      }
    }
  }

  // ---------------------------------------------------------------- overlapping loads

  datatype Stage = AwaitingConversations | AwaitingCounts(data: seq<Conversation>) | Finished

  /**
   `answer` and `results` are auxiliary: what the server answered this load with, if it did and the load has not
   failed since.
   */
  datatype Load = Load(
    user: UserId, generation: nat, stage: Stage, answer: Option<seq<Conversation>>, results: Option<Results>)

  datatype System = System(panel: Panel, loads: seq<Load>)

  datatype Action =
    | Refresh
    | Switch(userId: UserId, open: bool)
    | ConversationsArrive(l: nat, data: seq<Conversation>)
    | CountsArrive(l: nat, results: Results)
    | LoadFails(l: nat)

  function WithNewLoad(panel: Panel, loads: seq<Load>): System {
    System(panel, loads + [Load(panel.userId, panel.generation, AwaitingConversations, None, None)])
  }

  /** The server lists to an account only its own conversations. */
  predicate ListedTo(user: UserId, data: seq<Conversation>) {
    forall c :: c in data ==> c.member == user
  }

  function Step(s: System, a: Action): System {
    match a
    case Refresh => if s.panel.open then WithNewLoad(Began(s.panel), s.loads) else s
    case Switch(userId, open) =>
      var panel := Switched(s.panel, userId, open);
      if open then WithNewLoad(panel, s.loads) else System(panel, s.loads)
    case ConversationsArrive(l, data) =>
      if l >= |s.loads| || !s.loads[l].stage.AwaitingConversations? || !ListedTo(s.loads[l].user, data) then s else
        var load := s.loads[l];
        var stage := if load.generation == s.panel.generation then AwaitingCounts(data) else Finished;
        System(Listed(s.panel, load.generation, data), s.loads[l := load.(stage := stage, answer := Some(data))])
    case CountsArrive(l, results) =>
      if l >= |s.loads| || !s.loads[l].stage.AwaitingCounts? then s else
        var load := s.loads[l];
        System(Counted(s.panel, load.generation, load.stage.data, results), s.loads[l := load.(stage := Finished, results := Some(results))])
    case LoadFails(l) =>
      if l >= |s.loads| || s.loads[l].stage.Finished? then s else
        System(Threw(s.panel, s.loads[l].generation), s.loads[l := s.loads[l].(stage := Finished, answer := None, results := None)])
  }

  function Run(userId: UserId, actions: seq<Action>): System {
    if actions == [] then System(Blank(userId, false, 0), []) else
      Step(Run(userId, actions[..|actions| - 1]), actions[|actions| - 1])
  }

  predicate Shows(p: Panel) {
    p.conversations != [] || p.overview.Some?
  }

  /** The most recently started load, if the panel has not been switched or reset since. */
  predicate HasCurrentLoad(s: System) {
    s.loads != [] && s.loads[|s.loads| - 1].generation == s.panel.generation
  }

  ghost predicate Inv(s: System) {
    && (forall i :: 0 <= i < |s.loads| ==> s.loads[i].generation <= s.panel.generation)
    && (forall i, j :: 0 <= i < j < |s.loads| ==> s.loads[i].generation < s.loads[j].generation)
    && (forall i :: 0 <= i < |s.loads| ==>
          && (s.loads[i].answer.Some? ==> ListedTo(s.loads[i].user, s.loads[i].answer.value))
          && (s.loads[i].stage.AwaitingConversations? ==> s.loads[i].answer.None?)
          && (!s.loads[i].stage.Finished? ==> s.loads[i].results.None?)
          && (s.loads[i].stage.AwaitingCounts? ==> s.loads[i].answer == Some(s.loads[i].stage.data)))
    && (Shows(s.panel) || s.panel.loading ==> HasCurrentLoad(s))
    && (HasCurrentLoad(s) ==>
          var last := s.loads[|s.loads| - 1];
          && last.user == s.panel.userId
          && s.panel.conversations == (if last.answer.Some? then last.answer.value else [])
          && (s.panel.loading <==> !last.stage.Finished?)
          && (s.panel.overview.Some? <==> last.results.Some?)
          && (s.panel.overview.Some? ==>
                && last.answer.Some? && Reports(s.panel.overview.value, last.answer.value, last.results.value)
                && (s.panel.overviewWarning <==> SomeRejected(last.results.value)))
          && (s.panel.overview.None? ==> !s.panel.overviewWarning))
  }

  lemma ArrivalKeepsInv(s: System, l: nat, data: seq<Conversation>)
    requires Inv(s)
    ensures Inv(Step(s, ConversationsArrive(l, data)))
  {
  }

  lemma CountsKeepInv(s: System, l: nat, results: Results)
    requires Inv(s)
    ensures Inv(Step(s, CountsArrive(l, results)))
  {
  }

  lemma FailureKeepsInv(s: System, l: nat)
    requires Inv(s)
    ensures Inv(Step(s, LoadFails(l)))
  {
  }

  lemma RefreshKeepsInv(s: System)
    requires Inv(s)
    ensures Inv(Step(s, Refresh))
  {
  }

  lemma SwitchKeepsInv(s: System, userId: UserId, open: bool)
    requires Inv(s)
    ensures Inv(Step(s, Switch(userId, open)))
  {
  }

  lemma StepKeepsInv(s: System, a: Action)
    requires Inv(s)
    ensures Inv(Step(s, a))
  {
    match a {
      case Refresh => RefreshKeepsInv(s);
      case Switch(userId, open) => SwitchKeepsInv(s, userId, open);
      case ConversationsArrive(l, data) => ArrivalKeepsInv(s, l, data);
      case CountsArrive(l, results) => CountsKeepInv(s, l, results);
      case LoadFails(l) => FailureKeepsInv(s, l);
    }
  }

  lemma {:induction false} RunKeepsInv(userId: UserId, actions: seq<Action>)
    ensures Inv(Run(userId, actions))
  {
    if actions != [] {
      RunKeepsInv(userId, actions[..|actions| - 1]);
      StepKeepsInv(Run(userId, actions[..|actions| - 1]), actions[|actions| - 1]);
    }
  }

  /**
   Whatever the interleaving, the panel shows nothing, or what the most recently started load was answered
   with; that load is the current account's, the overview counts the conversations on display and says of each
   collection what its own request of that load answered, and there is a warning exactly if one was rejected.
   */
  lemma {:induction false} ShownComesFromLatestLoad(userId: UserId, actions: seq<Action>)
    requires Shows(Run(userId, actions).panel)
    ensures var t := Run(userId, actions);
            && t.loads != []
            && var last := t.loads[|t.loads| - 1];
            && last.generation == t.panel.generation && last.user == t.panel.userId
            && last.answer == Some(t.panel.conversations)
            && ListedTo(t.panel.userId, t.panel.conversations)
            && (t.panel.overview.Some? <==> last.results.Some?)
            && (t.panel.overview.Some? ==> Reports(t.panel.overview.value, t.panel.conversations, last.results.value))
            && (t.panel.overviewWarning <==> last.results.Some? && SomeRejected(last.results.value))
  {
    RunKeepsInv(userId, actions);
  }

  /** The spinner turns exactly while the most recently started load is current and unfinished. */
  lemma {:induction false} LoadingIffLatestUnfinished(userId: UserId, actions: seq<Action>)
    ensures var t := Run(userId, actions);
            t.panel.loading <==> HasCurrentLoad(t) && !t.loads[|t.loads| - 1].stage.Finished?
  {
    RunKeepsInv(userId, actions);
  }
}
