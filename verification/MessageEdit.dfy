/**
 The editor of one text message: a client that keeps the version it last received, saves by
 compare-and-set on `editedAt`, and hears of other edits through `message:updated` events that
 may be late, repeated, reordered or lost.
 */
module MessageEdit {
  import opened Common

  const MAX_LENGTH := 4000

  /** What the server stores for a message; `editedAt` is null until the first edit. */
  datatype Version = Version(content: Text, editedAt: Option<nat>)

  datatype EditedMessage = EditedMessage(id: string, conversationId: string, version: Version)

  datatype Editor = Editor(
    content: Text, baseContent: Text, editedAt: Option<nat>, busy: bool, conflict: bool)

  function Opened(v: Version): Editor {
    Editor(v.content, v.content, v.editedAt, false, false)
  }

  /** `seenBase` is the base text captured by the handler's closure, which may be out of date. */
  function Received(e: Editor, v: Version, seenBase: Text): Editor {
    if e.content != seenBase && e.content != v.content
    then e.(editedAt := v.editedAt, baseContent := v.content, conflict := true)
    else e.(editedAt := v.editedAt, baseContent := v.content, conflict := false, content := v.content)
  }

  predicate CanSave(e: Editor) {
    0 < |Trim(e.content)| <= MAX_LENGTH && !e.busy && !e.conflict
  }

  function Typed(e: Editor, text: Text): Editor {
    if e.busy then e else e.(content := text)
  }

  function Refused(e: Editor, versionConflict: bool): Editor {
    e.(busy := false, conflict := e.conflict || versionConflict)
  }

  function Restored(e: Editor): Editor {
    e.(content := e.baseContent, conflict := false)
  }

  class MessageEditControl {
    const conversationId: string
    const messageId: string
    var content: Text
    var baseContent: Text
    var editedAt: Option<nat>
    var busy: bool
    var conflict: bool

    function State(): Editor
      reads this
    {
      Editor(content, baseContent, editedAt, busy, conflict)
    }

    constructor (conversationId: string, messageId: string, initial: Version)
      ensures this.conversationId == conversationId && this.messageId == messageId
      ensures State() == Opened(initial)
      ensures content == baseContent == initial.content && editedAt == initial.editedAt && !busy && !conflict
    {
      this.conversationId, this.messageId := conversationId, messageId;
      content, baseContent, editedAt := initial.content, initial.content, initial.editedAt;
      busy, conflict := false, false;
    }

    method OnMessageUpdated(message: EditedMessage, seenBase: Text)
      modifies this
      ensures message.id == messageId && message.conversationId == conversationId
              ==> State() == Received(old(State()), message.version, seenBase)
      ensures message.id == messageId && message.conversationId == conversationId ==>
                && baseContent == message.version.content && editedAt == message.version.editedAt && busy == old(busy)
                && (old(content) == seenBase || old(content) == message.version.content
                    ==> content == message.version.content && !conflict)
                && (old(content) != seenBase && old(content) != message.version.content
                    ==> content == old(content) && conflict)
      ensures message.id != messageId || message.conversationId != conversationId
              ==> State() == old(State())
    {
      if message.id != messageId || message.conversationId != conversationId {
        return;
      }
      editedAt := message.version.editedAt;
      baseContent := message.version.content;
      if content != seenBase && content != message.version.content {
        conflict := true;
      } else {
        conflict := false;
        content := message.version.content;
      }
    }

    /** First half of `save`, up to the PATCH: the text and expected stamp put on the wire. */
    method BeginSave() returns (patch: Option<(Text, Option<nat>)>)
      modifies this
      ensures patch.Some? <==> 0 < |Trim(old(content))| <= 4000 && !old(busy) && !old(conflict)
      ensures patch.Some? ==> patch.value == (Trim(old(content)), old(editedAt))
      ensures State() == if patch.Some? then old(State()).(busy := true) else old(State())
    {
      var normalized := Trim(content);
      if |normalized| == 0 || |normalized| > MAX_LENGTH || busy || conflict {
        return None;
      }
      busy := true;
      patch := Some((normalized, editedAt));
    }

    /** The PATCH was answered: the editor adopts the version in the answer. */
    method SaveAnswered(updated: Version)
      modifies this
      ensures State() == Opened(updated)
      ensures content == baseContent == updated.content && editedAt == updated.editedAt && !busy && !conflict
    {
      content := updated.content;
      baseContent := updated.content;
      editedAt := updated.editedAt;
      conflict := false;
      busy := false;
    }

    /** The PATCH failed, either for its expected stamp or for any other reason. */
    method SaveRejected(versionConflict: bool)
      modifies this
      ensures State() == Refused(old(State()), versionConflict)
      ensures !busy && conflict == (old(conflict) || versionConflict)
      ensures content == old(content) && baseContent == old(baseContent) && editedAt == old(editedAt)
    {
      if versionConflict {
        conflict := true;
      }
      busy := false;
    }

    method ResetToServer()
      modifies this
      ensures State() == Restored(old(State()))
      ensures content == baseContent == old(baseContent) && editedAt == old(editedAt) && busy == old(busy) && !conflict
    {
      content := baseContent;
      conflict := false;
    }
  }

  // ---------------------------------------------------------------- the whole protocol

  /** A PATCH on the wire. `base` and `shown` are auxiliary: what the editor held when it was sent. */
  datatype Request = Request(text: Text, expected: Option<nat>, base: Text, shown: nat)

  /** One version in the server's history and the request that wrote it, if this editor did. */
  datatype Entry = Entry(version: Version, origin: Option<nat>)

  /**
   `sent` keeps every request, for the network may deliver one late or twice. Two auxiliary indices
   into the history: `known` is the version last put into `(editedAt, baseContent)`, `shown` the
   version that the editor's text was last taken from.
   */
  datatype System = System(
    editor: Editor, history: seq<Entry>, sent: seq<Request>, known: nat, shown: nat)

  datatype Action =
    | Type(text: Text)
    | Press
    | Reset
    | Deliver(i: nat, seenBase: Text)
    | Serve(r: nat, stamp: nat)
    | EditElsewhere(text: Text, at: nat)
    | Answer(i: nat)
    | Reject(versionConflict: bool)

  predicate Accepts(history: seq<Entry>, expected: Option<nat>) {
    history != [] && history[|history| - 1].version.editedAt == expected
  }

  /** Version `i` is shown once the editor's text is that version's. */
  function ShownAfter(s: System, e: Editor, i: nat): nat {
    if i < |s.history| && e.content == s.history[i].version.content then i else s.shown
  }

  /** An action that is not enabled leaves the system as it is. */
  function Step(s: System, a: Action): System {
    match a
    case Type(text) => s.(editor := Typed(s.editor, text))
    case Press =>
      if !CanSave(s.editor) then s else
        s.(editor := s.editor.(busy := true),
           sent := s.sent + [Request(Trim(s.editor.content), s.editor.editedAt, s.editor.baseContent, s.shown)])
    case Reset =>
      if !s.editor.conflict || s.editor.busy then s else
        var e := Restored(s.editor);
        s.(editor := e, shown := ShownAfter(s, e, s.known))
    case Deliver(i, seenBase) =>
      if i >= |s.history| then s else
        var e := Received(s.editor, s.history[i].version, seenBase);
        s.(editor := e, known := i, shown := ShownAfter(s, e, i))
    case Serve(r, stamp) =>
      if r >= |s.sent| || !Accepts(s.history, s.sent[r].expected) then s else
        s.(history := s.history + [Entry(Version(s.sent[r].text, Some(stamp)), Some(r))])
    case EditElsewhere(text, stamp) =>
      s.(history := s.history + [Entry(Version(text, Some(stamp)), None)])
    case Answer(i) =>
      if !s.editor.busy || i >= |s.history| then s else
        var e := Opened(s.history[i].version);
        s.(editor := e, known := i, shown := ShownAfter(s, e, i))
    case Reject(versionConflict) =>
      if !s.editor.busy then s else s.(editor := Refused(s.editor, versionConflict))
  }

  function Run(s: System, actions: seq<Action>): System {
    if actions == [] then s else Step(Run(s, actions[..|actions| - 1]), actions[|actions| - 1])
  }

  ghost predicate DistinctStamps(history: seq<Entry>) {
    forall i, j :: 0 <= i < j < |history| ==> history[i].version.editedAt != history[j].version.editedAt
  }

  /** The editor is opened on any version of a message edited any number of times before. */
  ghost predicate Start(s: System) {
    && s.known == s.shown < |s.history|
    && s.editor == Opened(s.history[s.known].version)
    && s.sent == []
    && DistinctStamps(s.history)
    && forall k :: 0 <= k < |s.history| ==> s.history[k].origin == None
  }

  /** The server never writes the same `editedAt` twice for this message. */
  ghost predicate Ticking(s: System, actions: seq<Action>) {
    actions == [] ||
    var before := actions[..|actions| - 1];
    && Ticking(s, before)
    && DistinctStamps(Run(s, actions).history)
  }

  /** The save that wrote version `k` was made from version `k - 1`, and from nothing older. */
  ghost predicate ReplacesWhatWasShown(s: System, k: nat)
    requires 0 <= k < |s.history| && s.history[k].origin.Some?
  {
    var r := s.history[k].origin.value;
    && r < |s.sent| && k > 0
    && s.sent[r].shown == k - 1
    && s.sent[r].base == s.history[k - 1].version.content
    && s.sent[r].text == s.history[k].version.content
  }

  /** What holds whatever the server's clock does. */
  ghost predicate Grounded(s: System) {
    && s.known < |s.history| && s.shown < |s.history|
    && s.editor.editedAt == s.history[s.known].version.editedAt
    && s.editor.baseContent == s.history[s.known].version.content
    && (!s.editor.conflict ==> s.shown == s.known)
    && (forall r :: 0 <= r < |s.sent| ==>
          && s.sent[r].shown < |s.history|
          && s.sent[r].expected == s.history[s.sent[r].shown].version.editedAt
          && s.sent[r].base == s.history[s.sent[r].shown].version.content)
  }

  ghost predicate Inv(s: System) {
    && Grounded(s)
    && forall k :: 0 <= k < |s.history| && s.history[k].origin.Some? ==> ReplacesWhatWasShown(s, k)
  }

  lemma {:induction false} RunIsGrounded(s: System, actions: seq<Action>)
    requires Start(s)
    ensures Grounded(Run(s, actions))
  {
    if actions != [] {
      RunIsGrounded(s, actions[..|actions| - 1]);
      StepIsGrounded(Run(s, actions[..|actions| - 1]), actions[|actions| - 1]);
    }
  }

  lemma StepIsGrounded(s: System, a: Action)
    requires Grounded(s)
    ensures Grounded(Step(s, a))
  {
  }

  lemma StepKeepsInv(s: System, a: Action)
    requires Inv(s) && DistinctStamps(s.history)
    ensures Inv(Step(s, a))
  {
    StepIsGrounded(s, a);
    var s' := Step(s, a);
    forall k | 0 <= k < |s'.history| && s'.history[k].origin.Some?
      ensures ReplacesWhatWasShown(s', k)
    {
      StepReplaces(s, a, k);
    }
  }

  lemma StepReplaces(s: System, a: Action, k: nat)
    requires Inv(s) && DistinctStamps(s.history)
    requires k < |Step(s, a).history| && Step(s, a).history[k].origin.Some?
    ensures ReplacesWhatWasShown(Step(s, a), k)
  {
    if k < |s.history| {
      assert ReplacesWhatWasShown(s, k);
    }
  }

  lemma {:induction false} RunKeepsInv(s: System, actions: seq<Action>)
    requires Start(s) && Ticking(s, actions)
    ensures Inv(Run(s, actions)) && DistinctStamps(Run(s, actions).history)
  {
    if actions != [] {
      RunKeepsInv(s, actions[..|actions| - 1]);
      StepKeepsInv(Run(s, actions[..|actions| - 1]), actions[|actions| - 1]);
    }
  }

  /**
   No lost update: in every run, every version written by this editor replaced exactly the version
   that its text was typed from, and no request is applied twice.
   */
  lemma {:induction false} NoLostUpdate(s: System, actions: seq<Action>)
    requires Start(s) && Ticking(s, actions)
    ensures var t := Run(s, actions);
            && (forall k :: 0 <= k < |t.history| && t.history[k].origin.Some? ==> ReplacesWhatWasShown(t, k))
            && (forall j, k :: 0 <= j < k < |t.history| && t.history[k].origin.Some?
                  ==> t.history[j].origin != t.history[k].origin)
  {
    RunKeepsInv(s, actions);
    var t := Run(s, actions);
    forall j, k | 0 <= j < k < |t.history| && t.history[k].origin.Some?
      ensures t.history[j].origin != t.history[k].origin
    {
      assert ReplacesWhatWasShown(t, k);
      if t.history[j].origin.Some? {
        assert ReplacesWhatWasShown(t, j);
      }
    }
  }

  /**
   Whatever the clock does: a save is accepted over a version that its text was not taken from exactly when
   the newest version carries the stamp of the older one that it was taken from.
   */
  lemma {:induction false} AcceptedSaveLosesIff(s: System, actions: seq<Action>, r: nat, stamp: nat)
    requires Start(s) && r < |Run(s, actions).sent|
    ensures var t := Run(s, actions);
            var from, newest := t.sent[r].shown, |t.history| - 1;
            && 0 <= from <= newest
            && (Step(t, Serve(r, stamp)) != t && from != newest
                <==> from < newest && t.history[from].version.editedAt == t.history[newest].version.editedAt)
  {
    RunIsGrounded(s, actions);
    var t := Run(s, actions);
    if Accepts(t.history, t.sent[r].expected) {
      assert |Step(t, Serve(r, stamp)).history| == |t.history| + 1;
    }
  }

  /** The server writes a stamp that no version carries yet. */
  predicate WritesFreshStamp(s: System, a: Action) {
    match a
    case Serve(r, stamp) => Step(s, a) == s || !Stamped(s.history, stamp)
    case EditElsewhere(_, stamp) => !Stamped(s.history, stamp)
    case _ => true
  }

  predicate Stamped(history: seq<Entry>, stamp: nat) {
    exists k :: 0 <= k < |history| && history[k].version.editedAt == Some(stamp)
  }

  /** Every write of the run did. */
  ghost predicate FreshStamps(s: System, actions: seq<Action>) {
    actions == [] ||
    var before := actions[..|actions| - 1];
    FreshStamps(s, before) && WritesFreshStamp(Run(s, before), actions[|actions| - 1])
  }

  lemma {:induction false} TickingMeansDistinct(s: System, actions: seq<Action>)
    requires Start(s) && Ticking(s, actions)
    ensures DistinctStamps(Run(s, actions).history)
  {
  }

  /** The clock hypothesis can be checked write by write. */
  lemma {:induction false} TickingIff(s: System, actions: seq<Action>)
    requires Start(s)
    ensures Ticking(s, actions) <==> FreshStamps(s, actions)
  {
    if actions != [] {
      var before := actions[..|actions| - 1];
      TickingIff(s, before);
      if Ticking(s, before) {
        TickingMeansDistinct(s, before);
        StepTicksIff(Run(s, before), actions[|actions| - 1]);
      }
    }
  }

  lemma StepTicksIff(s: System, a: Action)
    requires DistinctStamps(s.history)
    ensures DistinctStamps(Step(s, a).history) <==> WritesFreshStamp(s, a)
  {
    var h, h' := s.history, Step(s, a).history;
    if |h'| > |h| {
      assert h' == h + [h'[|h|]];
      if DistinctStamps(h') {
        forall k | 0 <= k < |h| ensures h[k].version.editedAt != h'[|h|].version.editedAt {
          assert h'[k] == h[k];
        }
      }
    }
  }

  /** `(editedAt, baseContent)` always names a server version; without a conflict, the editor shows it. */
  lemma {:induction false} EditorNamesServerVersion(s: System, actions: seq<Action>)
    requires Start(s)
    ensures var t := Run(s, actions);
            && t.known < |t.history|
            && t.history[t.known].version == Version(t.editor.baseContent, t.editor.editedAt)
            && (!t.editor.conflict ==> t.shown == t.known)
  {
    RunIsGrounded(s, actions);
  }

  lemma RunAppend(s: System, actions: seq<Action>, a: Action)
    ensures Run(s, actions + [a]) == Step(Run(s, actions), a)
  {
    assert (actions + [a])[..|actions|] == actions;
  }

  lemma ReceivedShows(e: Editor, v: Version, seenBase: Text)
    ensures var after := Received(e, v, seenBase);
            && after.baseContent == v.content && after.editedAt == v.editedAt && after.busy == e.busy
            && (e.content == seenBase || e.content == v.content ==> after.content == v.content && !after.conflict)
            && (e.content != seenBase && e.content != v.content ==> after.content == e.content && after.conflict)
  {
  }

  /**
   An event is adopted, its text included if the editor's is the captured base or already the event's; any other
   text stays, and is in conflict.
   */
  lemma EventIsAdopted(s: System, actions: seq<Action>, i: nat, seenBase: Text)
    requires i < |Run(s, actions).history|
    ensures var e, v := Run(s, actions).editor, Run(s, actions).history[i].version;
            var after := Run(s, actions + [Deliver(i, seenBase)]).editor;
            && after.baseContent == v.content && after.editedAt == v.editedAt && after.busy == e.busy
            && (e.content == seenBase || e.content == v.content ==> after.content == v.content && !after.conflict)
            && (e.content != seenBase && e.content != v.content ==> after.content == e.content && after.conflict)
  {
    var t := Run(s, actions);
    RunAppend(s, actions, Deliver(i, seenBase));
    assert Step(t, Deliver(i, seenBase)).editor == Received(t.editor, t.history[i].version, seenBase);
    ReceivedShows(t.editor, t.history[i].version, seenBase);
  }

  /** In every run, an editor in which nothing was typed shows the version that arrives, without conflict. */
  lemma {:induction false} UntouchedEditorFollows(s: System, actions: seq<Action>, i: nat)
    requires Start(s) && i < |Run(s, actions).history|
    requires Run(s, actions).editor.content == Run(s, actions).editor.baseContent
    ensures var t := Run(s, actions);
            var u := Run(s, actions + [Deliver(i, t.editor.baseContent)]);
            && u.shown == u.known == i && !u.editor.conflict
            && u.history[i].version == Version(u.editor.content, u.editor.editedAt)
  {
    RunIsGrounded(s, actions);
    EventIsAdopted(s, actions, i, Run(s, actions).editor.baseContent);
    RunAppend(s, actions, Deliver(i, Run(s, actions).editor.baseContent));
  }

  /** An editor that has the newest version saves exactly the text typed, trimmed, and then shows it. */
  lemma {:induction false} TypedTextIsSaved(s: System, actions: seq<Action>, text: Text, stamp: nat)
    requires Start(s) && 0 < |Trim(text)| <= 4000
    requires var t := Run(s, actions); !t.editor.busy && !t.editor.conflict && t.known == |t.history| - 1
    ensures var t := Run(s, actions);
            var pressed := Step(Step(t, Type(text)), Press);
            var u := Step(Step(pressed, Serve(|t.sent|, stamp)), Answer(|t.history|));
            && |pressed.sent| == |t.sent| + 1 && pressed.editor.busy
            && |u.history| == |t.history| + 1
            && u.history[|t.history|].version == Version(Trim(text), Some(stamp))
            && u.editor.content == u.editor.baseContent == Trim(text) && u.editor.editedAt == Some(stamp)
            && !u.editor.busy && !u.editor.conflict
  {
    RunIsGrounded(s, actions);
  }

  lemma {:induction false} HistoryGrows(s: System, actions: seq<Action>, n: nat)
    requires n <= |actions|
    ensures Run(s, actions[..n]).history <= Run(s, actions).history
  {
    if n < |actions| {
      var before := actions[..|actions| - 1];
      HistoryGrows(s, before, n);
      assert before[..n] == actions[..n];
    } else {
      assert actions[..n] == actions;
    }
  }

  /**
   An event discards the text only if it is the base that the handler captured, at this moment or earlier in
   the run; so what is discarded is always a text that the server's history still holds.
   */
  lemma {:induction false} TypedTextSurvives(s: System, actions: seq<Action>, n: nat, i: nat)
    requires Start(s) && n <= |actions|
    ensures var t := Run(s, actions);
            var seenBase := Run(s, actions[..n]).editor.baseContent;
            Step(t, Deliver(i, seenBase)).editor.content != t.editor.content
            ==> exists k :: 0 <= k < |t.history| && t.history[k].version.content == t.editor.content
  {
    RunIsGrounded(s, actions[..n]);
    HistoryGrows(s, actions, n);
    var earlier := Run(s, actions[..n]);
    assert Run(s, actions).history[earlier.known] == earlier.history[earlier.known];
  }

  /**
   After a refusal, taking the server version back and saving again succeeds exactly when the newest
   version has already been received: "taking the server version" fetches nothing.
   */
  lemma {:induction false} ResetThenSaveSucceedsIff(s: System, before: seq<Action>, text: Text, stamp: nat)
    requires Start(s) && Ticking(s, before) && Run(s, before).editor.busy
    requires 0 < |Trim(text)| <= MAX_LENGTH
    ensures var t := Run(s, before);
            var retyped := Step(Step(Step(t, Reject(true)), Reset), Type(text));
            var u := Step(Step(retyped, Press), Serve(|t.sent|, stamp));
            |u.history| == |t.history| + 1 <==> t.known == |t.history| - 1
  {
    RunKeepsInv(s, before);
    var t := Run(s, before);
  }

  /** Saving while another edit has been made whose event does not arrive. */
  lemma SavedUnawares() returns (s: System, before: seq<Action>)
    ensures Start(s) && Ticking(s, before)
    ensures var t := Run(s, before); t.editor.busy && t.known == 0 && |t.history| == 2 && |t.sent| == 1
  {
    s := System(Opened(Version([97], None)), [Entry(Version([97], None), None)], [], 0, 0);
    var edited := [] + [EditElsewhere([98], 5)];
    RunAppend(s, [], EditElsewhere([98], 5));
    assert Trim([97]) == [97];
    RunAppend(s, edited, Press);
    before := edited + [Press];
    assert before[..1] == edited && edited[..0] == [];
    assert Ticking(s, []) && Ticking(s, edited);
  }

  /** Refused, reset, retyped and saved again, that save is refused again. */
  lemma ResetCanFailAgain()
    ensures exists s, before ::
      && Start(s) && Ticking(s, before) && Run(s, before).editor.busy
      && var t := Run(s, before);
         var retyped := Step(Step(Step(t, Reject(true)), Reset), Type([99]));
         |Step(Step(retyped, Press), Serve(|t.sent|, 6)).history| != |t.history| + 1
  {
    var s, before := SavedUnawares();
    assert Trim([99]) == [99];
    ResetThenSaveSucceedsIff(s, before, [99], 6);
  }

  /** Two edits within one tick of the server's clock are enough to lose one of them. */
  lemma ClockTieLosesUpdate()
    ensures exists s, actions ::
      && Start(s)
      && var t := Run(s, actions);
         && |t.history| == 4 && t.history[3].origin == Some(0) && |t.sent| == 1
         && t.sent[0].shown == 1
         && t.history[2].origin == None && t.sent[0].base != t.history[2].version.content
  {
    var s := System(Opened(Version([97], None)), [Entry(Version([97], None), None)], [], 0, 0);
    var s1 := Step(s, EditElsewhere([98], 5));
    var s2 := Step(s1, Deliver(1, [97]));
    var s3 := Step(s2, EditElsewhere([99], 5));
    var s4 := Step(s3, Press);
    assert Trim([98]) == [98];
    var t := Step(s4, Serve(0, 6));
    assert t.history[3].origin == Some(0);
    RunAppend(s, [], EditElsewhere([98], 5));
    var a1 := [] + [EditElsewhere([98], 5)];
    RunAppend(s, a1, Deliver(1, [97]));
    var a2 := a1 + [Deliver(1, [97])];
    RunAppend(s, a2, EditElsewhere([99], 5));
    var a3 := a2 + [EditElsewhere([99], 5)];
    RunAppend(s, a3, Press);
    RunAppend(s, a3 + [Press], Serve(0, 6));
    assert t == Run(s, a3 + [Press] + [Serve(0, 6)]);
    assert Start(s);
  }
}
