/**
 Recently used and favourite expressions of the chat keyboard: bounded lists against the unbounded
 most-recent-first list, and the window in which sending a sticker works with an old list.
 */
module ExpressionRecents {
  import opened Common

  type Glyph = string

  const LIMIT := 36

  /** `list.filter(item => item !== g)` */
  function Without(list: seq<Glyph>, g: Glyph): seq<Glyph> {
    if list == [] then [] else
      (if list[0] == g then [] else [list[0]]) + Without(list[1..], g)
  }

  /** `list.slice(0, n)` */
  function Take(list: seq<Glyph>, n: nat): seq<Glyph> {
    if |list| <= n then list else list[..n]
  }

  function MovedToFront(list: seq<Glyph>, g: Glyph): seq<Glyph> {
    [g] + Without(list, g)
  }

  /** One use of a glyph, as `chooseEmoji` and `sendSticker` record it. */
  function Used(recent: seq<Glyph>, g: Glyph): seq<Glyph> {
    Take(MovedToFront(recent, g), LIMIT)
  }

  function Toggled(favorites: seq<Glyph>, g: Glyph): seq<Glyph> {
    if g in favorites then Without(favorites, g) else Take([g] + favorites, LIMIT)
  }

  // ---------------------------------------------------------------- lists

  lemma {:induction false} WithoutIsFilter(list: seq<Glyph>, g: Glyph)
    ensures forall x :: x in Without(list, g) <==> x in list && x != g
    ensures |Without(list, g)| <= |list|
    ensures g !in list ==> Without(list, g) == list
    ensures NoDuplicates(list) ==> NoDuplicates(Without(list, g))
    ensures NoDuplicates(list) && g in list ==> |Without(list, g)| == |list| - 1
  {
    if list != [] {
      var rest := list[1..];
      WithoutIsFilter(rest, g);
      assert list == [list[0]] + rest;
      if NoDuplicates(list) {
        assert NoDuplicates(rest) && list[0] !in Without(rest, g);
      }
    }
  }

  lemma {:induction false} WithoutConcat(a: seq<Glyph>, b: seq<Glyph>, g: Glyph)
    ensures Without(a + b, g) == Without(a, g) + Without(b, g)
  {
    if a == [] {
      assert a + b == b;
    } else {
      WithoutConcat(a[1..], b, g);
      assert (a + b)[1..] == a[1..] + b;
      Regroup(if a[0] == g then [] else [a[0]], Without(a[1..], g), Without(b, g));
    }
  }

  lemma Regroup(a: seq<Glyph>, b: seq<Glyph>, c: seq<Glyph>)
    ensures a + (b + c) == a + b + c
  {
  }

  lemma WithoutFront(list: seq<Glyph>, x: Glyph, g: Glyph)
    ensures Without([x] + list, g) == (if x == g then [] else [x]) + Without(list, g)
  {
    assert ([x] + list)[1..] == list;
  }

  lemma {:induction false} WithoutCommutes(list: seq<Glyph>, g: Glyph, h: Glyph)
    ensures Without(Without(list, g), h) == Without(Without(list, h), g)
  {
    if list != [] {
      WithoutCommutes(list[1..], g, h);
      WithoutFront(Without(list[1..], g), list[0], h);
      WithoutFront(Without(list[1..], h), list[0], g);
      assert [] + Without(list[1..], g) == Without(list[1..], g);
      assert [] + Without(list[1..], h) == Without(list[1..], h);
    }
  }

  /** From a duplicate-free list a glyph is taken out of its place, and the others stay in theirs. */
  lemma {:induction false} WithoutCuts(list: seq<Glyph>, i: nat)
    requires NoDuplicates(list) && i < |list|
    ensures Without(list, list[i]) == list[..i] + list[i + 1..]
  {
    if i == 0 {
      WithoutIsFilter(list[1..], list[0]);
      assert [] + list[1..] == list[1..];
    } else {
      var rest := list[1..];
      WithoutCuts(rest, i - 1);
      assert rest[i - 1] == list[i] && list[0] != list[i];
      assert [list[0]] + rest[..i - 1] == list[..i] && rest[i..] == list[i + 1..];
      Regroup([list[0]], rest[..i - 1], rest[i..]);
    }
  }

  /** A used glyph comes first, then the others in their order, up to 36 in all. */
  lemma {:induction false} UsedIs(recent: seq<Glyph>, g: Glyph)
    requires NoDuplicates(recent) && |recent| <= 36
    ensures forall i :: 0 <= i < |recent| && recent[i] == g ==> Used(recent, g) == [g] + recent[..i] + recent[i + 1..]
    ensures g !in recent && |recent| < 36 ==> Used(recent, g) == [g] + recent
    ensures g !in recent && |recent| == 36 ==> Used(recent, g) == [g] + recent[..35]
  {
    WithoutIsFilter(recent, g);
    forall i | 0 <= i < |recent| && recent[i] == g ensures Used(recent, g) == [g] + recent[..i] + recent[i + 1..] {
      WithoutCuts(recent, i);
      Regroup([g], recent[..i], recent[i + 1..]);
    }
  }

  /** A toggled favourite is taken out of its place or put in front; the others stay in order, up to 36 in all. */
  lemma {:induction false} ToggledIs(favorites: seq<Glyph>, g: Glyph)
    requires NoDuplicates(favorites) && |favorites| <= 36
    ensures forall i :: 0 <= i < |favorites| && favorites[i] == g ==> Toggled(favorites, g) == favorites[..i] + favorites[i + 1..]
    ensures g !in favorites && |favorites| < 36 ==> Toggled(favorites, g) == [g] + favorites
    ensures g !in favorites && |favorites| == 36 ==> Toggled(favorites, g) == [g] + favorites[..35]
  {
    forall i | 0 <= i < |favorites| && favorites[i] == g
      ensures Toggled(favorites, g) == favorites[..i] + favorites[i + 1..]
    {
      WithoutCuts(favorites, i);
    }
  }

  /** Truncation commutes with moving to the front: the forgotten tail is never missed. */
  lemma {:induction false} TruncationCommutes(full: seq<Glyph>, g: Glyph)
    requires NoDuplicates(full)
    ensures Used(Take(full, LIMIT), g) == Take(MovedToFront(full, g), LIMIT)
  {
    if |full| > LIMIT {
      var head, tail := full[..LIMIT], full[LIMIT..];
      assert full == head + tail;
      WithoutConcat(head, tail, g);
      WithoutIsFilter(head, g);
    }
  }

  /** Each value of a list once, where it first occurs. */
  function FirstOccurrences(list: seq<Glyph>): seq<Glyph> {
    if list == [] then [] else [list[0]] + Without(FirstOccurrences(list[1..]), list[0])
  }

  lemma {:induction false} FirstOccurrencesDistinct(list: seq<Glyph>)
    ensures NoDuplicates(FirstOccurrences(list))
    ensures forall x :: x in FirstOccurrences(list) <==> x in list
    ensures NoDuplicates(list) ==> FirstOccurrences(list) == list
  {
    if list != [] {
      var rest := FirstOccurrences(list[1..]);
      FirstOccurrencesDistinct(list[1..]);
      WithoutIsFilter(rest, list[0]);
      assert list == [list[0]] + list[1..];
      assert FirstOccurrences(list) == [list[0]] + Without(rest, list[0]);
    }
  }

  ghost predicate SameGlyphs(a: seq<Glyph>, b: seq<Glyph>) {
    forall x :: x in a <==> x in b
  }

  /** `r[j]` occurs first at `p`, and what comes before it are the values before it. */
  ghost predicate FirstAt(list: seq<Glyph>, r: seq<Glyph>, j: int, p: int) {
    0 <= p < |list| && 0 <= j < |r| && list[p] == r[j] && SameGlyphs(list[..p], r[..j])
  }

  /** The values of the list in the order of their first occurrences. */
  lemma {:induction false} FirstOccurrencesInOrder(list: seq<Glyph>, j: nat)
    requires j < |FirstOccurrences(list)|
    ensures exists p :: FirstAt(list, FirstOccurrences(list), j, p)
  {
    var rest, r := FirstOccurrences(list[1..]), FirstOccurrences(list);
    if j == 0 {
      assert FirstAt(list, r, 0, 0);
    } else {
      FirstOccurrencesDistinct(list[1..]);
      var k := WithoutAt(rest, list[0], j - 1);
      FirstOccurrencesInOrder(list[1..], k);
      var p :| FirstAt(list[1..], rest, k, p);
      assert list[..p + 1] == [list[0]] + list[1..][..p];
      assert r[..j] == [list[0]] + Without(rest, list[0])[..j - 1];
      assert FirstAt(list, r, j, p + 1);
    }
  }

  /** Where an entry of the shortened list stood, with the same values before it but the one taken out. */
  lemma {:induction false} WithoutAt(list: seq<Glyph>, g: Glyph, j: nat) returns (k: nat)
    requires NoDuplicates(list) && j < |Without(list, g)|
    ensures k < |list| && list[k] == Without(list, g)[j]
    ensures forall x :: x in Without(list, g)[..j] <==> x in list[..k] && x != g
  {
    WithoutIsFilter(list, g);
    if g in list {
      var i :| 0 <= i < |list| && list[i] == g;
      WithoutCuts(list, i);
      k := if j < i then j else j + 1;
      assert j > i ==> Without(list, g)[..j] == list[..i] + list[i + 1..j + 1];
      assert j > i ==> list[..k] == list[..i] + [g] + list[i + 1..j + 1];
      assert j == i ==> list[..k] == list[..i] + [g] && Without(list, g)[..j] == list[..i];
      assert j < i ==> Without(list, g)[..j] == list[..j];
    } else {
      k := j;
    }
  }

  lemma {:induction false} ReversedAt(list: seq<Glyph>, i: nat)
    requires i < |list|
    ensures |Reversed(list)| == |list| && Reversed(list)[i] == list[|list| - 1 - i]
  {
    if i > 0 {
      ReversedAt(list[..|list| - 1], i - 1);
    } else if |list| > 1 {
      ReversedAt(list[..|list| - 1], 0);
    }
  }

  /** The ideal list: every distinct glyph ever used, the most recent first, then those restored. */
  function Recency(restored: seq<Glyph>, uses: seq<Glyph>): seq<Glyph> {
    FirstOccurrences(Reversed(uses) + restored)
  }

  function Reversed(list: seq<Glyph>): seq<Glyph> {
    if list == [] then [] else [list[|list| - 1]] + Reversed(list[..|list| - 1])
  }

  lemma RecencyIsDistinct(restored: seq<Glyph>, uses: seq<Glyph>)
    ensures NoDuplicates(Recency(restored, uses))
  {
    FirstOccurrencesDistinct(Reversed(uses) + restored);
  }

  lemma RecencyStep(restored: seq<Glyph>, uses: seq<Glyph>, g: Glyph)
    ensures Recency(restored, uses + [g]) == MovedToFront(Recency(restored, uses), g)
  {
    var before := Reversed(uses) + restored;
    assert (uses + [g])[..|uses|] == uses;
    assert Reversed(uses + [g]) + restored == [g] + before;
    assert ([g] + before)[1..] == before;
  }

  // ---------------------------------------------------------------- the keyboard

  /** A sticker on its way with the lists that its handler captured. */
  datatype Send = Send(glyph: Glyph, recent: seq<Glyph>, favorites: seq<Glyph>)

  /** The two lists as storage holds them. */
  datatype Saved = Saved(recent: seq<Glyph>, favorites: seq<Glyph>)

  datatype Keyboard = Keyboard(recent: seq<Glyph>, favorites: seq<Glyph>, stored: Saved, sending: Option<Send>)

  /** The lists read back from storage, cut to the bound. */
  function Restored(saved: Saved): Keyboard {
    Keyboard(Take(saved.recent, LIMIT), Take(saved.favorites, LIMIT), saved, None)
  }

  /** Storage is given the lists that are shown. */
  function Persisted(k: Keyboard): Keyboard {
    k.(stored := Saved(k.recent, k.favorites))
  }

  /** A sticker was sent: its handler works with the lists it captured. */
  function Recorded(k: Keyboard, s: Send): Keyboard {
    var next := Used(s.recent, s.glyph);
    k.(recent := next, stored := Saved(next, s.favorites), sending := None)
  }

  class ChatExpressionKeyboard {
    var recent: seq<Glyph>
    var favorites: seq<Glyph>
    var stored: Saved
    var sending: Option<Send>

    function State(): Keyboard
      reads this
    {
      Keyboard(recent, favorites, stored, sending)
    }

    constructor (saved: Saved)
      ensures State() == Restored(saved)
      ensures recent == (if |saved.recent| <= 36 then saved.recent else saved.recent[..36])
      ensures favorites == (if |saved.favorites| <= 36 then saved.favorites else saved.favorites[..36])
      ensures stored == saved && sending == None
    {
      recent, favorites := Take(saved.recent, LIMIT), Take(saved.favorites, LIMIT);
      stored, sending := saved, None;
    }

    method Persist()
      modifies this
      ensures State() == Persisted(old(State()))
    {
      stored := Saved(recent, favorites);
    }

    method ChooseEmoji(glyph: Glyph)
      modifies this
      ensures State() == Persisted(old(State()).(recent := Used(old(recent), glyph)))
      ensures stored == Saved(recent, favorites) && favorites == old(favorites) && sending == old(sending)
      ensures recent[0] == glyph && |recent| <= 36
    {
      recent := Take([glyph] + Without(recent, glyph), LIMIT);
      Persist();
    }

    method ToggleFavorite(glyph: Glyph)
      modifies this
      ensures State() == Persisted(old(State()).(favorites := Toggled(old(favorites), glyph)))
      ensures stored == Saved(recent, favorites) && recent == old(recent) && sending == old(sending)
    {
      if glyph in favorites {
        favorites := Without(favorites, glyph);
      } else {
        favorites := Take([glyph] + favorites, LIMIT);
      }
      Persist();
    }

    /** `sendSticker` up to its request: the closure keeps the lists of the render it was made in. */
    method BeginSticker(glyph: Glyph)
      modifies this
      ensures State() == if old(sending).Some? then old(State())
                         else old(State()).(sending := Some(Send(glyph, old(recent), old(favorites))))
    {
      if sending.Some? {
        return;
      }
      sending := Some(Send(glyph, recent, favorites));
    }

    method StickerAnswered(sent: bool)
      requires sending.Some?
      modifies this
      ensures State() == if sent then Recorded(old(State()), old(sending).value) else old(State()).(sending := None)
      ensures sending == None && favorites == old(favorites)
      ensures sent ==> recent[0] == old(sending).value.glyph && stored == Saved(recent, old(sending).value.favorites)
      ensures !sent ==> recent == old(recent) && stored == old(stored)
    {
      if sent {
        var s := sending.value;
        recent := Take([s.glyph] + Without(s.recent, s.glyph), LIMIT);
        stored := Saved(recent, s.favorites);
      }
      sending := None;
    }
  }

  datatype Action =
    | Choose(glyph: Glyph)
    | Toggle(glyph: Glyph)
    | PressSticker(glyph: Glyph)
    | StickerSent
    | StickerFailed

  function Step(k: Keyboard, a: Action): Keyboard {
    match a
    case Choose(g) => Persisted(k.(recent := Used(k.recent, g)))
    case Toggle(g) => Persisted(k.(favorites := Toggled(k.favorites, g)))
    case PressSticker(g) => if k.sending.Some? then k else k.(sending := Some(Send(g, k.recent, k.favorites)))
    case StickerSent => if k.sending.None? then k else Recorded(k, k.sending.value)
    case StickerFailed => k.(sending := None)
  }

  /** What an action records as used, if anything. */
  function UseOf(k: Keyboard, a: Action): seq<Glyph> {
    match a
    case Choose(g) => [g]
    case StickerSent => if k.sending.Some? then [k.sending.value.glyph] else []
    case _ => []
  }

  function Run(restored: Saved, actions: seq<Action>): Keyboard {
    if actions == [] then Restored(restored) else
      Step(Run(restored, actions[..|actions| - 1]), actions[|actions| - 1])
  }

  function Uses(restored: Saved, actions: seq<Action>): seq<Glyph> {
    if actions == [] then [] else
      var before := actions[..|actions| - 1];
      Uses(restored, before) + UseOf(Run(restored, before), actions[|actions| - 1])
  }

  /** An emoji is used when it is chosen, a sticker's glyph when the sticker is sent. */
  lemma UsesNext(restored: Saved, actions: seq<Action>, a: Action)
    ensures var k, uses := Run(restored, actions), Uses(restored, actions);
            Uses(restored, actions + [a]) ==
            if a.Choose? then uses + [a.glyph]
            else if a.StickerSent? && k.sending.Some? then uses + [k.sending.value.glyph]
            else uses
  {
    assert (actions + [a])[..|actions|] == actions;
  }

  /** The emojis chosen since the sticker on its way was pressed. */
  function ChosenSince(restored: Saved, actions: seq<Action>): seq<Glyph> {
    if actions == [] then [] else
      var before := actions[..|actions| - 1];
      if Run(restored, before).sending.None? then []
      else match actions[|actions| - 1]
           case Choose(g) => ChosenSince(restored, before) + [g]
           case Toggle(_) => ChosenSince(restored, before)
           case PressSticker(_) => ChosenSince(restored, before)
           case _ => []
  }

  function UsedAll(recent: seq<Glyph>, glyphs: seq<Glyph>): seq<Glyph> {
    if glyphs == [] then recent else
      Used(UsedAll(recent, glyphs[..|glyphs| - 1]), glyphs[|glyphs| - 1])
  }

  /**
   The emojis chosen during a send, the latest first and without the sticker's own glyph, already were the
   first of the list that the send had captured.
   */
  predicate HarmlessChoices(captured: seq<Glyph>, sticker: Glyph, chosen: seq<Glyph>) {
    Take(Without(FirstOccurrences(Reversed(chosen)), sticker), LIMIT - 1) <= Without(captured, sticker)
  }

  /** If the run goes on with the sticker on its way being sent, the choices since were harmless. */
  predicate HarmlessNext(restored: Saved, actions: seq<Action>, next: Action) {
    var k := Run(restored, actions);
    next.StickerSent? && k.sending.Some? ==>
      HarmlessChoices(k.sending.value.recent, k.sending.value.glyph, ChosenSince(restored, actions))
  }

  /** So it is for every sticker sent in the run. */
  predicate HarmlessSends(restored: Saved, actions: seq<Action>) {
    actions == [] ||
    var before := actions[..|actions| - 1];
    HarmlessSends(restored, before) && HarmlessNext(restored, before, actions[|actions| - 1])
  }

  // ---------------------------------------------------------------- choices during a send

  function WithoutAll(list: seq<Glyph>, glyphs: seq<Glyph>): seq<Glyph> {
    if glyphs == [] then list else Without(WithoutAll(list, glyphs[1..]), glyphs[0])
  }

  lemma {:induction false} WithoutAllIsFilter(list: seq<Glyph>, glyphs: seq<Glyph>)
    ensures (forall x :: x in list ==> x !in glyphs) ==> WithoutAll(list, glyphs) == list
    ensures forall x :: x in WithoutAll(list, glyphs) <==> x in list && x !in glyphs
  {
    if glyphs != [] {
      WithoutAllIsFilter(list, glyphs[1..]);
      WithoutIsFilter(WithoutAll(list, glyphs[1..]), glyphs[0]);
      assert glyphs == [glyphs[0]] + glyphs[1..];
    }
  }

  lemma {:induction false} WithoutAllConcat(a: seq<Glyph>, b: seq<Glyph>, glyphs: seq<Glyph>)
    ensures WithoutAll(a + b, glyphs) == WithoutAll(a, glyphs) + WithoutAll(b, glyphs)
  {
    if glyphs != [] {
      WithoutAllConcat(a, b, glyphs[1..]);
      WithoutConcat(WithoutAll(a, glyphs[1..]), WithoutAll(b, glyphs[1..]), glyphs[0]);
    }
  }

  lemma {:induction false} WithoutAllCommutes(list: seq<Glyph>, glyphs: seq<Glyph>, g: Glyph)
    ensures Without(WithoutAll(list, glyphs), g) == WithoutAll(Without(list, g), glyphs)
  {
    if glyphs != [] {
      WithoutAllCommutes(list, glyphs[1..], g);
      WithoutCommutes(WithoutAll(list, glyphs[1..]), glyphs[0], g);
    }
  }

  /** Put before a duplicate-free list, glyphs come first and are taken out of it. */
  lemma {:induction false} FirstOccurrencesBefore(glyphs: seq<Glyph>, list: seq<Glyph>)
    requires NoDuplicates(list)
    ensures FirstOccurrences(glyphs + list) == FirstOccurrences(glyphs) + WithoutAll(list, glyphs)
  {
    if glyphs == [] {
      assert glyphs + list == list;
      FirstOccurrencesDistinct(list);
    } else {
      var rest := glyphs[1..];
      FirstOccurrencesBefore(rest, list);
      assert (glyphs + list)[0] == glyphs[0] && (glyphs + list)[1..] == rest + list;
      WithoutConcat(FirstOccurrences(rest), WithoutAll(list, rest), glyphs[0]);
      Regroup([glyphs[0]], Without(FirstOccurrences(rest), glyphs[0]), WithoutAll(list, glyphs));
    }
  }

  lemma {:induction false} UsedAllIsRecency(recent: seq<Glyph>, glyphs: seq<Glyph>)
    requires NoDuplicates(recent) && |recent| <= LIMIT
    ensures UsedAll(recent, glyphs) == Take(Recency(recent, glyphs), LIMIT)
  {
    if glyphs == [] {
      FirstOccurrencesDistinct(recent);
      assert Reversed([]) + recent == recent;
    } else {
      var before, g := glyphs[..|glyphs| - 1], glyphs[|glyphs| - 1];
      UsedAllIsRecency(recent, before);
      OneMoreUse(recent, before, g);
      assert before + [g] == glyphs;
    }
  }

  lemma SomethingIn(list: seq<Glyph>)
    requires list != []
    ensures exists x :: x in list
  {
    assert list[0] in list;
  }

  lemma HalvesDiffer(a: seq<Glyph>, b: seq<Glyph>)
    requires NoDuplicates(a + b)
    ensures forall x :: x in b ==> x !in a
  {
    forall i, j | 0 <= i < |a| && 0 <= j < |b| ensures a[i] != b[j] {
      assert (a + b)[i] == a[i] && (a + b)[|a| + j] == b[j];
    }
  }

  /** Nothing moves if the glyphs already come first. */
  lemma PrefixStays(first: seq<Glyph>, rest: seq<Glyph>, glyphs: seq<Glyph>)
    requires NoDuplicates(first + rest)
    requires forall x :: x in first ==> x in glyphs
    requires forall x :: x in rest && x in glyphs ==> x in first
    ensures WithoutAll(first + rest, glyphs) == rest
  {
    WithoutAllConcat(first, rest, glyphs);
    WithoutAllIsFilter(first, glyphs);
    if WithoutAll(first, glyphs) != [] {
      SomethingIn(WithoutAll(first, glyphs));
    }
    HalvesDiffer(first, rest);
    WithoutAllIsFilter(rest, glyphs);
  }

  lemma TakeOfConcat(a: seq<Glyph>, b: seq<Glyph>, n: nat)
    ensures Take(a, n) <= Take(a + b, n)
    ensures |a| >= n ==> Take(a + b, n) == Take(a, n)
  {
  }

  /** Moving `first` to the front of a duplicate-free list leaves its beginning as it was if and only if it was that. */
  lemma PrefixMovedIff(list: seq<Glyph>, first: seq<Glyph>, glyphs: seq<Glyph>, n: nat)
    requires NoDuplicates(list)
    requires forall x :: x in first ==> x in glyphs
    requires forall x :: x in list && x in glyphs ==> x in first
    ensures Take(first + WithoutAll(list, glyphs), n) == Take(list, n) <==> Take(first, n) <= list
  {
    var others := WithoutAll(list, glyphs);
    TakeOfConcat(first, others, n);
    if Take(first, n) <= list && |first| < n {
      var rest := list[|first|..];
      assert list == first + rest;
      PrefixStays(first, rest, glyphs);
    }
  }

  lemma TakeAfterOne(g: Glyph, a: seq<Glyph>, b: seq<Glyph>, n: nat)
    requires n > 0
    ensures Take([g] + a, n) == Take([g] + b, n) <==> Take(a, n - 1) == Take(b, n - 1)
  {
    assert Take([g] + a, n) == [g] + Take(a, n - 1);
    assert Take([g] + b, n) == [g] + Take(b, n - 1);
    assert ([g] + Take(a, n - 1))[1..] == Take(a, n - 1);
    assert ([g] + Take(b, n - 1))[1..] == Take(b, n - 1);
  }

  lemma UsesThenSticker(recent: seq<Glyph>, chosen: seq<Glyph>, sticker: Glyph)
    requires NoDuplicates(recent) && |recent| <= LIMIT
    ensures Used(UsedAll(recent, chosen), sticker) ==
            Take([sticker] + (Without(FirstOccurrences(Reversed(chosen)), sticker)
                              + WithoutAll(Without(recent, sticker), Reversed(chosen))), LIMIT)
  {
    var glyphs := Reversed(chosen);
    UsedAllIsRecency(recent, chosen);
    OneMoreUse(recent, chosen, sticker);
    RecencyStep(recent, chosen, sticker);
    FirstOccurrencesBefore(glyphs, recent);
    WithoutConcat(FirstOccurrences(glyphs), WithoutAll(recent, glyphs), sticker);
    WithoutAllCommutes(recent, glyphs, sticker);
  }

  lemma ChosenOrOthers(recent: seq<Glyph>, glyphs: seq<Glyph>, sticker: Glyph)
    requires NoDuplicates(recent)
    ensures NoDuplicates(Without(recent, sticker))
    ensures forall x :: x in Without(FirstOccurrences(glyphs), sticker) ==> x in glyphs
    ensures forall x :: x in Without(recent, sticker) && x in glyphs ==> x in Without(FirstOccurrences(glyphs), sticker)
  {
    WithoutIsFilter(recent, sticker);
    FirstOccurrencesDistinct(glyphs);
    WithoutIsFilter(FirstOccurrences(glyphs), sticker);
  }

  /**
   A sticker sent while any number of emojis is chosen works with the list of before: what it records is the
   right list if and only if those choices were harmless.
   */
  lemma {:induction false} StaleStickerIsHarmlessIff(recent: seq<Glyph>, chosen: seq<Glyph>, sticker: Glyph)
    requires NoDuplicates(recent) && |recent| <= LIMIT
    ensures Used(recent, sticker) == Used(UsedAll(recent, chosen), sticker)
            <==> HarmlessChoices(recent, sticker, chosen)
  {
    var glyphs := Reversed(chosen);
    var first, others := Without(FirstOccurrences(glyphs), sticker), Without(recent, sticker);
    UsesThenSticker(recent, chosen, sticker);
    ChosenOrOthers(recent, glyphs, sticker);
    TakeAfterOne(sticker, first + WithoutAll(others, glyphs), others, LIMIT);
    PrefixMovedIff(others, first, glyphs, LIMIT - 1);
  }

  // ---------------------------------------------------------------- every run

  /** The list is right: the beginning of the ideal one. */
  predicate Right(restored: Saved, actions: seq<Action>) {
    Run(restored, actions).recent == Take(Recency(restored.recent, Uses(restored, actions)), LIMIT)
  }

  /** The list is right, and is what the emojis chosen since make of the one captured for a sticker. */
  ghost predicate Refines(restored: Saved, actions: seq<Action>) {
    var k := Run(restored, actions);
    && Right(restored, actions)
    && (k.sending.Some? ==>
          var captured := k.sending.value.recent;
          && NoDuplicates(captured) && |captured| <= LIMIT
          && k.recent == UsedAll(captured, ChosenSince(restored, actions)))
  }

  lemma UseRefines(restored: Saved, actions: seq<Action>, g: Glyph)
    requires HarmlessSends(restored, actions)
    requires Refines(restored, actions)
    ensures Refines(restored, actions + [Choose(g)])
  {
    var all := actions + [Choose(g)];
    assert all[..|actions|] == actions;
    OneMoreUse(restored.recent, Uses(restored, actions), g);
    var chosen := ChosenSince(restored, actions);
    assert (chosen + [g])[..|chosen|] == chosen;
  }

  /** The sticker that was on its way is recorded rightly if and only if the choices since were harmless. */
  lemma SentIsRightIff(restored: Saved, actions: seq<Action>)
    requires Run(restored, actions).sending.Some?
    requires Refines(restored, actions)
    ensures var all := actions + [StickerSent];
            && Run(restored, all).sending.None?
            && (Right(restored, all) <==> HarmlessNext(restored, actions, StickerSent))
  {
    var k, all := Run(restored, actions), actions + [StickerSent];
    assert all[..|actions|] == actions;
    var sticker, captured := k.sending.value.glyph, k.sending.value.recent;
    OneMoreUse(restored.recent, Uses(restored, actions), sticker);
    StaleStickerIsHarmlessIff(captured, ChosenSince(restored, actions), sticker);
  }

  lemma OtherRefines(restored: Saved, actions: seq<Action>, a: Action)
    requires a.Toggle? || a.PressSticker? || a.StickerFailed? || (a.StickerSent? && Run(restored, actions).sending.None?)
    requires Refines(restored, actions)
    ensures Refines(restored, actions + [a])
  {
    var all := actions + [a];
    assert all[..|actions|] == actions;
    assert Uses(restored, all) == Uses(restored, actions) + [] == Uses(restored, actions);
    RecencyIsDistinct(restored.recent, Uses(restored, actions));
  }

  lemma {:induction false} RunRefines(restored: Saved, actions: seq<Action>)
    requires NoDuplicates(restored.recent) && HarmlessSends(restored, actions)
    ensures Refines(restored, actions)
  {
    if actions == [] {
      FirstOccurrencesDistinct(restored.recent);
      assert Reversed([]) + restored.recent == restored.recent;
    } else {
      var before, last := actions[..|actions| - 1], actions[|actions| - 1];
      RunRefines(restored, before);
      assert before + [last] == actions;
      if last.Choose? {
        UseRefines(restored, before, last.glyph);
      } else if last.StickerSent? && Run(restored, before).sending.Some? {
        SentIsRightIff(restored, before);
      } else {
        OtherRefines(restored, before, last);
      }
    }
  }

  /** The bounded list is the beginning of the ideal one, has no duplicates and stays within its bound. */
  lemma {:induction false} RecentsRefineRecency(restored: Saved, actions: seq<Action>)
    requires NoDuplicates(restored.recent) && HarmlessSends(restored, actions)
    ensures var recent := Run(restored, actions).recent;
            && recent == Take(Recency(restored.recent, Uses(restored, actions)), LIMIT)
            && NoDuplicates(recent) && |recent| <= LIMIT
  {
    RunRefines(restored, actions);
    RecencyIsDistinct(restored.recent, Uses(restored, actions));
  }

  predicate AlwaysRight(restored: Saved, actions: seq<Action>) {
    Right(restored, actions) && (actions == [] || AlwaysRight(restored, actions[..|actions| - 1]))
  }

  lemma RightAtFirst(restored: Saved)
    requires NoDuplicates(restored.recent)
    ensures Right(restored, [])
  {
    RunRefines(restored, []);
  }

  lemma LastIsRightIff(restored: Saved, actions: seq<Action>)
    requires NoDuplicates(restored.recent) && actions != [] && HarmlessSends(restored, actions[..|actions| - 1])
    ensures Right(restored, actions) <==> HarmlessNext(restored, actions[..|actions| - 1], actions[|actions| - 1])
  {
    var before, last := actions[..|actions| - 1], actions[|actions| - 1];
    assert before + [last] == actions;
    RunRefines(restored, before);
    if last.StickerSent? && Run(restored, before).sending.Some? {
      SentIsRightIff(restored, before);
    } else if last.Choose? {
      UseRefines(restored, before, last.glyph);
    } else {
      OtherRefines(restored, before, last);
    }
  }

  /** In any run, the list is right all the time if and only if every sticker was sent with harmless choices. */
  lemma {:induction false} AlwaysRightIff(restored: Saved, actions: seq<Action>)
    requires NoDuplicates(restored.recent)
    ensures AlwaysRight(restored, actions) <==> HarmlessSends(restored, actions)
  {
    if actions == [] {
      RightAtFirst(restored);
    } else {
      AlwaysRightIff(restored, actions[..|actions| - 1]);
      if HarmlessSends(restored, actions[..|actions| - 1]) {
        LastIsRightIff(restored, actions);
      }
    }
  }

  lemma OneMoreUse(restored: seq<Glyph>, uses: seq<Glyph>, g: Glyph)
    ensures Used(Take(Recency(restored, uses), LIMIT), g) == Take(Recency(restored, uses + [g]), LIMIT)
  {
    FirstOccurrencesDistinct(Reversed(uses) + restored);
    RecencyStep(restored, uses, g);
    TruncationCommutes(Recency(restored, uses), g);
  }

  // ---------------------------------------------------------------- what is stored

  function ToggledAll(favorites: seq<Glyph>, glyphs: seq<Glyph>): seq<Glyph> {
    if glyphs == [] then favorites else
      Toggled(ToggledAll(favorites, glyphs[..|glyphs| - 1]), glyphs[|glyphs| - 1])
  }

  /** The favourites toggled since the sticker on its way was pressed. */
  function TogglesSince(restored: Saved, actions: seq<Action>): seq<Glyph> {
    if actions == [] then [] else
      var before := actions[..|actions| - 1];
      if Run(restored, before).sending.None? then []
      else match actions[|actions| - 1]
           case Toggle(g) => TogglesSince(restored, before) + [g]
           case Choose(_) => TogglesSince(restored, before)
           case PressSticker(_) => TogglesSince(restored, before)
           case _ => []
  }

  /** If the run goes on with the sticker being sent, the toggles since leave the favourites as it captured them. */
  predicate RestoringNext(restored: Saved, actions: seq<Action>, next: Action) {
    var k := Run(restored, actions);
    next.StickerSent? && k.sending.Some? ==>
      ToggledAll(k.sending.value.favorites, TogglesSince(restored, actions)) == k.sending.value.favorites
  }

  predicate RestoringToggles(restored: Saved, actions: seq<Action>) {
    actions == [] ||
    var before := actions[..|actions| - 1];
    RestoringToggles(restored, before) && RestoringNext(restored, before, actions[|actions| - 1])
  }

  predicate StoredIsShown(k: Keyboard) {
    k.stored == Saved(k.recent, k.favorites)
  }

  predicate AlwaysStored(restored: Saved, actions: seq<Action>) {
    StoredIsShown(Run(restored, actions)) && (actions == [] || AlwaysStored(restored, actions[..|actions| - 1]))
  }

  /** The favourites shown are those captured with the toggles since. */
  lemma {:induction false} FavoritesSince(restored: Saved, actions: seq<Action>)
    ensures var k := Run(restored, actions);
            k.sending.Some? ==> k.favorites == ToggledAll(k.sending.value.favorites, TogglesSince(restored, actions))
  {
    if actions != [] {
      var before := actions[..|actions| - 1];
      FavoritesSince(restored, before);
      var toggles := TogglesSince(restored, before);
      forall g ensures (toggles + [g])[..|toggles|] == toggles {
      }
    }
  }

  lemma StoredAfterStep(k: Keyboard, a: Action)
    requires StoredIsShown(k)
    ensures StoredIsShown(Step(k, a)) <==>
            (a.StickerSent? && k.sending.Some? ==> k.favorites == k.sending.value.favorites)
  {
  }

  /**
   In any run, what is stored is what is shown all the time if and only if it was so at first and, at every sticker
   sent, the toggles made since it was pressed had left the favourites as they were.
   */
  lemma {:induction false} StoredIsShownIff(restored: Saved, actions: seq<Action>)
    ensures AlwaysStored(restored, actions)
            <==> StoredIsShown(Restored(restored)) && RestoringToggles(restored, actions)
  {
    if actions != [] {
      var before := actions[..|actions| - 1];
      StoredIsShownIff(restored, before);
      if StoredIsShown(Run(restored, before)) {
        FavoritesSince(restored, before);
        StoredAfterStep(Run(restored, before), actions[|actions| - 1]);
      }
    }
  }

  lemma RunAppend(restored: Saved, actions: seq<Action>, a: Action)
    ensures Run(restored, actions + [a]) == Step(Run(restored, actions), a)
  {
    assert (actions + [a])[..|actions|] == actions;
  }

  /** A sticker is pressed, then the lists are touched, then the sticker is sent. */
  lemma SentAround(saved: Saved, sticker: Glyph, a: Action) returns (actions: seq<Action>)
    ensures actions == [PressSticker(sticker), a, StickerSent]
    ensures Run(saved, actions) == Step(Step(Step(Restored(saved), PressSticker(sticker)), a), StickerSent)
  {
    var pressed := [] + [PressSticker(sticker)];
    RunAppend(saved, [], PressSticker(sticker));
    RunAppend(saved, pressed, a);
    RunAppend(saved, pressed + [a], StickerSent);
    actions := pressed + [a] + [StickerSent];
  }

  /** A favourite removed while a sticker is sent is stored again, though no longer shown. */
  lemma RemovedFavoriteIsStoredAgain(g: Glyph, sticker: Glyph)
    ensures var k := Run(Saved([], [g]), [PressSticker(sticker), Toggle(g), StickerSent]);
            k.favorites == [] && k.stored.favorites == [g]
  {
    var saved := Saved([], [g]);
    var actions := SentAround(saved, sticker, Toggle(g));
    assert Without([g], g) == [];
  }

  /** An emoji chosen while a sticker is sent is not recorded. */
  lemma ChosenEmojiIsForgotten(emoji: Glyph, sticker: Glyph)
    requires emoji != sticker
    ensures var actions := [PressSticker(sticker), Choose(emoji), StickerSent];
            emoji !in Run(Saved([], []), actions).recent && !Right(Saved([], []), actions)
  {
    var saved := Saved([], []);
    var actions := SentAround(saved, sticker, Choose(emoji));
    assert Without([], sticker) == [];
    assert Run(saved, actions).recent == [sticker];
    UsesAround(saved, sticker, emoji);
    RecencyOfTwo(emoji, sticker);
  }

  lemma UsesAround(saved: Saved, sticker: Glyph, emoji: Glyph)
    ensures Uses(saved, [PressSticker(sticker), Choose(emoji), StickerSent]) == [emoji, sticker]
  {
    var pressed := [] + [PressSticker(sticker)];
    UsesAppend(saved, [], PressSticker(sticker));
    UsesAppend(saved, pressed, Choose(emoji));
    UsesAppend(saved, pressed + [Choose(emoji)], StickerSent);
    RunAppend(saved, [], PressSticker(sticker));
    RunAppend(saved, pressed, Choose(emoji));
    assert pressed + [Choose(emoji)] + [StickerSent] == [PressSticker(sticker), Choose(emoji), StickerSent];
  }

  lemma UsesAppend(restored: Saved, actions: seq<Action>, a: Action)
    ensures Uses(restored, actions + [a]) == Uses(restored, actions) + UseOf(Run(restored, actions), a)
  {
    assert (actions + [a])[..|actions|] == actions;
  }

  lemma RecencyOfTwo(first: Glyph, second: Glyph)
    requires first != second
    ensures Recency([], [first, second]) == [second, first]
  {
    RecencyStep([], [], first);
    RecencyStep([], [first], second);
    assert [] + [first] == [first] && [first] + [second] == [first, second];
    assert Recency([], []) == [] && Without([], first) == [];
    assert Recency([], [first]) == [first];
    assert Without([first], second) == [first];
  }

  // ---------------------------------------------------------------- favourites

  lemma HeadOnce(list: seq<Glyph>)
    requires NoDuplicates(list) && list != []
    ensures [list[0]] + Without(list, list[0]) == list
  {
    WithoutIsFilter(list[1..], list[0]);
  }

  lemma AddThenRemove(favorites: seq<Glyph>, g: Glyph)
    requires NoDuplicates(favorites) && |favorites| <= LIMIT && g !in favorites
    ensures Without(Take([g] + favorites, LIMIT), g) == Take(favorites, LIMIT - 1)
  {
    var kept := Take(favorites, LIMIT - 1);
    assert Take([g] + favorites, LIMIT) == [g] + kept;
    WithoutFront(kept, g, g);
    WithoutIsFilter(kept, g);
    assert [] + kept == kept;
  }

  lemma RemoveThenAdd(favorites: seq<Glyph>, g: Glyph)
    requires NoDuplicates(favorites) && |favorites| <= LIMIT && g in favorites
    ensures Take([g] + Without(favorites, g), LIMIT) == favorites <==> favorites[0] == g
  {
    WithoutIsFilter(favorites, g);
    if favorites[0] == g {
      HeadOnce(favorites);
    }
  }

  /** Favourites keep their bound and stay distinct; a toggle changes membership. */
  lemma ToggleFlips(favorites: seq<Glyph>, g: Glyph)
    requires NoDuplicates(favorites) && |favorites| <= LIMIT
    ensures NoDuplicates(Toggled(favorites, g)) && |Toggled(favorites, g)| <= LIMIT
    ensures g in Toggled(favorites, g) <==> g !in favorites
  {
    WithoutIsFilter(favorites, g);
    if g !in favorites {
      assert Toggled(favorites, g)[0] == g;
    }
  }

  /** Toggling twice gives the favourites back exactly when nothing was pushed out and nothing moved. */
  lemma {:induction false} ToggleTwiceRestoresIff(favorites: seq<Glyph>, g: Glyph)
    requires NoDuplicates(favorites) && |favorites| <= LIMIT
    ensures Toggled(Toggled(favorites, g), g) == favorites
            <==> if g in favorites then favorites[0] == g else |favorites| < LIMIT
  {
    ToggleFlips(favorites, g);
    if g in favorites {
      RemoveThenAdd(favorites, g);
    } else {
      AddThenRemove(favorites, g);
    }
  }
}
