/**
 Splitting a message into plain text and `@username` mentions. The regular expression is given its
 ECMAScript meaning (leftmost start, alternatives in order, greedy run with backtracking, lookahead);
 the scanner built on it is proved to produce the one decomposition that a local rule describes.
 */
module MentionText {
  import opened Common

  const AT: CodeUnit := 64
  const DOT: CodeUnit := 46

  datatype Part = Part(value: Text, username: Option<Text>)

  /** `\w`, which is also `[A-Za-z0-9_]`. */
  predicate IsWord(c: CodeUnit) {
    65 <= c <= 90 || 97 <= c <= 122 || 48 <= c <= 57 || c == 95
  }

  /** `[^\w.@]` */
  predicate IsBoundary(c: CodeUnit) {
    !IsWord(c) && c != DOT && c != AT
  }

  /** `String.prototype.slice` from indices that are not negative. */
  function Slice(text: Text, lo: nat, hi: nat): (r: Text)
    ensures lo <= hi <= |text| ==> |r| == hi - lo && forall i :: 0 <= i < |r| ==> r[i] == text[lo + i]
    decreases |text| - lo
  {
    if lo >= hi || lo >= |text| then [] else [text[lo]] + Slice(text, lo + 1, hi)
  }

  // ---------------------------------------------------------------- the regular expression

  /** `index`, the length of group 1, and group 2. */
  datatype Match = Match(index: nat, group1: nat, username: Text) {
    /** Where the `@` stands. */
    function Start(): nat { index + group1 }

    function End(): nat { Start() + |username| + 1 }
  }

  /** How far `[A-Za-z0-9_]*` can run from `p`. */
  function WordRun(text: Text, p: nat): (n: nat)
    requires p <= |text|
    ensures p + n <= |text|
    decreases |text| - p
  {
    if p < |text| && IsWord(text[p]) then 1 + WordRun(text, p + 1) else 0
  }

  /** The run consists of word characters and is maximal. */
  lemma {:induction false} WordRunIsMaximal(text: Text, p: nat)
    requires p <= |text|
    ensures var n := WordRun(text, p);
            && (forall i :: p <= i < p + n ==> IsWord(text[i]))
            && (p + n < |text| ==> !IsWord(text[p + n]))
    decreases |text| - p
  {
    if p < |text| && IsWord(text[p]) {
      WordRunIsMaximal(text, p + 1);
    }
  }

  /** Give back one character at a time, down to three, until the lookahead `(?![\w])` holds. */
  function Backtrack(text: Text, p: nat, n: nat): Option<nat>
    requires p + n <= |text|
  {
    if n < 3 then None
    else if p + n == |text| || !IsWord(text[p + n]) then Some(n)
    else Backtrack(text, p, n - 1)
  }

  /** `([A-Za-z0-9_]{3,24})(?![\w])` at `p`: at most 24 characters are taken first. */
  function MatchUsername(text: Text, p: nat): Option<nat>
    requires p <= |text|
  {
    var run := WordRun(text, p);
    Backtrack(text, p, if run < 24 then run else 24)
  }

  /** `@` and a username at `p`. */
  function MatchAtSign(text: Text, p: nat): (r: Option<Text>)
    requires p <= |text|
    ensures r.Some? ==> p + 1 + |r.value| <= |text| && 3 <= |r.value|
  {
    if p == |text| || text[p] != AT then None else
      match MatchUsername(text, p + 1)
      case None => None
      case Some(n) => BacktrackBound(text, p + 1); Some(Slice(text, p + 1, p + 1 + n))
  }

  lemma BacktrackBound(text: Text, p: nat)
    requires p <= |text|
    ensures var r := MatchUsername(text, p); r.Some? ==> 3 <= r.value && p + r.value <= |text|
  {
    BacktrackResult(text, p, if WordRun(text, p) < 24 then WordRun(text, p) else 24);
  }

  /** Backtracking into a run of word characters never finds a shorter username. */
  lemma {:induction false} BacktrackResult(text: Text, p: nat, n: nat)
    requires p <= |text| && n <= WordRun(text, p)
    ensures Backtrack(text, p, n) == if 3 <= n == WordRun(text, p) then Some(n) else None
  {
    WordRunIsMaximal(text, p);
    if n >= 3 && n < WordRun(text, p) {
      BacktrackResult(text, p, n - 1);
    }
  }

  /** The whole pattern tried at one index: first alternative `^`, second one consumed character. */
  function MatchAt(text: Text, p: nat): (r: Option<Match>)
    requires p <= |text|
    ensures r.Some? ==> r.value.index == p && p + r.value.group1 + 1 + |r.value.username| <= |text|
    ensures r.Some? ==> r.value.username != []
  {
    if p == 0 && MatchAtSign(text, 0).Some? then Some(Match(0, 0, MatchAtSign(text, 0).value))
    else if p < |text| && IsBoundary(text[p]) && MatchAtSign(text, p + 1).Some?
    then Some(Match(p, 1, MatchAtSign(text, p + 1).value))
    else None
  }

  /** `RegExp.prototype.exec` from `lastIndex`: the leftmost match. */
  function Exec(text: Text, lastIndex: nat): (r: Option<Match>)
    requires lastIndex <= |text|
    ensures r.Some? ==> lastIndex <= r.value.index && r.value.End() <= |text| && r.value.username != []
    decreases |text| - lastIndex
  {
    if MatchAt(text, lastIndex).Some? then MatchAt(text, lastIndex)
    else if lastIndex == |text| then None
    else Exec(text, lastIndex + 1)
  }

  // ---------------------------------------------------------------- the local rule

  /**
   An `@` is a mention exactly when nothing, or something other than a word character, a dot and an
   `@`, stands before it, and the maximal run of word characters after it has length 3 to 24.
   */
  predicate IsMention(text: Text, p: nat) {
    && p < |text| && text[p] == AT
    && (p == 0 || IsBoundary(text[p - 1]))
    && 3 <= WordRun(text, p + 1) <= 24
  }

  function UsernameAt(text: Text, p: nat): Text
    requires IsMention(text, p)
  {
    Slice(text, p + 1, p + 1 + WordRun(text, p + 1))
  }

  ghost predicate IsPlain(text: Text, lo: nat, hi: nat) {
    forall p :: lo <= p < hi ==> !IsMention(text, p)
  }

  /** `v` is the stretch of `text` that begins at `from`. */
  ghost predicate Occurs(text: Text, from: nat, v: Text) {
    from + |v| <= |text| && forall i :: 0 <= i < |v| ==> v[i] == text[from + i]
  }

  /** `part` may stand at `from`: a mention of the rule, or plain text that holds no mention. */
  ghost predicate Fits(text: Text, from: nat, part: Part) {
    var v := part.value;
    && v != [] && Occurs(text, from, v)
    && (match part.username
        case Some(u) => IsMention(text, from) && |u| == WordRun(text, from + 1) && v == [AT] + u
        case None => IsPlain(text, from, from + |v|))
  }

  /** `parts` is the decomposition of `text[from..]`: mentions where the rule says, maximal plain text between. */
  ghost predicate Describes(text: Text, from: nat, parts: seq<Part>)
    decreases |parts|
  {
    if parts == [] then from == |text| else
      && Fits(text, from, parts[0])
      && (parts[0].username.None? && |parts| > 1 ==> parts[1].username.Some?)
      && Describes(text, from + |parts[0].value|, parts[1..])
  }

  function Concat(parts: seq<Part>): Text {
    if parts == [] then [] else parts[0].value + Concat(parts[1..])
  }

  /** Where the mention parts of a decomposition that begins at `from` stand. */
  ghost function MentionOffsets(parts: seq<Part>, from: nat): set<nat> {
    if parts == [] then {} else
      (if parts[0].username.Some? then {from} else {}) + MentionOffsets(parts[1..], from + |parts[0].value|)
  }

  lemma OccursAppend(text: Text, from: nat, v: Text, rest: Text)
    requires Occurs(text, from, v) && Occurs(text, from + |v|, rest)
    ensures Occurs(text, from, v + rest)
  {
  }

  /** Lossless: the parts put together are the text from there to its end. */
  lemma {:induction false} DescribesIsLossless(text: Text, from: nat, parts: seq<Part>)
    requires from <= |text| && Describes(text, from, parts)
    ensures Occurs(text, from, Concat(parts)) && from + |Concat(parts)| == |text|
    decreases |parts|
  {
    if parts != [] {
      var next := from + |parts[0].value|;
      DescribesIsLossless(text, next, parts[1..]);
      OccursAppend(text, from, parts[0].value, Concat(parts[1..]));
    }
  }

  /** Every `@` that satisfies the rule is a mention part of its own, and no other position is. */
  lemma {:induction false} DescribesFindsExactlyTheMentions(text: Text, from: nat, parts: seq<Part>)
    requires from <= |text| && Describes(text, from, parts)
    ensures MentionOffsets(parts, from) == set p: nat | from <= p < |text| && IsMention(text, p)
    decreases |parts|
  {
    if parts != [] {
      var next := from + |parts[0].value|;
      DescribesFindsExactlyTheMentions(text, next, parts[1..]);
      if parts[0].username.Some? {
        WordRunIsMaximal(text, from + 1);
        forall p | from < p < next ensures !IsMention(text, p) {
          assert IsWord(text[p]);
        }
      }
    }
  }

  /** Canonical: a text has one decomposition. */
  lemma {:induction false} DecompositionIsUnique(text: Text, from: nat, a: seq<Part>, b: seq<Part>)
    requires from <= |text| && Describes(text, from, a) && Describes(text, from, b)
    ensures a == b
    decreases |a|
  {
    if a != [] && b != [] {
      FirstPartIsUnique(text, from, a, b);
      DecompositionIsUnique(text, from + |a[0].value|, a[1..], b[1..]);
      assert a == [a[0]] + a[1..] && b == [b[0]] + b[1..];
    }
  }

  lemma FirstPartIsUnique(text: Text, from: nat, a: seq<Part>, b: seq<Part>)
    requires from <= |text| && a != [] && b != []
    requires Describes(text, from, a) && Describes(text, from, b)
    ensures a[0] == b[0]
  {
    if a[0].username.None? && b[0].username.None? {
      PlainEnd(text, from, a, |b[0].value|);
      PlainEnd(text, from, b, |a[0].value|);
    }
    assert a[0].value == b[0].value;
    if a[0].username.Some? {
      assert a[0].username.value == a[0].value[1..];
      assert b[0].username.value == b[0].value[1..];
    }
  }

  /** A plain part cannot stop short of another: what follows it is a mention or the end. */
  lemma PlainEnd(text: Text, from: nat, a: seq<Part>, n: nat)
    requires a != [] && Describes(text, from, a) && a[0].username.None?
    requires from + n <= |text| && IsPlain(text, from, from + n)
    ensures n <= |a[0].value|
  {
    var next := from + |a[0].value|;
    if |a| > 1 {
      assert Describes(text, next, a[1..]) && IsMention(text, next);
    }
  }

  // ---------------------------------------------------------------- the pattern against the rule

  lemma AtSignIsLocal(text: Text, p: nat)
    requires p < |text| && text[p] == AT && (p == 0 || IsBoundary(text[p - 1]))
    ensures IsMention(text, p) <==> MatchAtSign(text, p).Some?
    ensures IsMention(text, p) ==> MatchAtSign(text, p).value == UsernameAt(text, p)
  {
    var run := WordRun(text, p + 1);
    BacktrackResult(text, p + 1, if run < 24 then run else 24);
  }

  /** The pattern matches at `p` exactly the mention that begins at `p` (only at 0) or just after it. */
  lemma MatchAtIsLocal(text: Text, p: nat)
    requires p <= |text|
    ensures match MatchAt(text, p)
            case Some(m) =>
              var start := p + m.group1;
              && IsMention(text, start) && m.username == UsernameAt(text, start)
              && (start == p ==> p == 0) && start <= p + 1
              && (start == p + 1 ==> !IsMention(text, p))
            case None => !IsMention(text, p + 1) && (p == 0 ==> !IsMention(text, 0))
  {
    if p == 0 && p < |text| && text[p] == AT {
      AtSignIsLocal(text, 0);
    }
    if p + 1 < |text| && text[p + 1] == AT && IsBoundary(text[p]) {
      AtSignIsLocal(text, p + 1);
    }
  }

  /** From a position that follows a word character, `Exec` finds the next mention and skips none. */
  lemma {:induction false} ExecFindsNext(text: Text, from: nat)
    requires from <= |text| && !(from > 0 && IsMention(text, from))
    ensures match Exec(text, from)
            case Some(m) =>
              var start := m.index + m.group1;
              && from <= start && IsMention(text, start) && m.username == UsernameAt(text, start)
              && IsPlain(text, from, start)
            case None => IsPlain(text, from, |text| + 1)
    decreases |text| - from
  {
    MatchAtIsLocal(text, from);
    if MatchAt(text, from).None? && from < |text| {
      ExecFindsNext(text, from + 1);
    }
  }

  // ---------------------------------------------------------------- the scanner

  /** `text.matchAll(pattern)` from `from` on: each search starts where the match before it ended. */
  function Matches(text: Text, from: nat): seq<Match>
    requires from <= |text|
    decreases |text| - from
  {
    match Exec(text, from)
    case None => []
    case Some(m) => [m] + Matches(text, m.End())
  }

  /** The parts pushed so far and the cursor. */
  datatype Scanner = Scanner(parts: seq<Part>, cursor: nat)

  function MentionPart(username: Text): Part {
    Part([AT] + username, Some(username))
  }

  function PlainBetween(text: Text, cursor: nat, start: nat): seq<Part> {
    if start > cursor then [Part(Slice(text, cursor, start), None)] else []
  }

  /** One turn of the loop, with its two guards. */
  function Turn(text: Text, s: Scanner, m: Match): Scanner {
    if m.username == [] || m.Start() < s.cursor then s
    else Scanner(s.parts + PlainBetween(text, s.cursor, m.Start()) + [MentionPart(m.username)], m.End())
  }

  function Turns(text: Text, s: Scanner, matches: seq<Match>): Scanner
    decreases |matches|
  {
    if matches == [] then s else Turns(text, Turn(text, s, matches[0]), matches[1..])
  }

  function Scan(text: Text): seq<Part> {
    var s := Turns(text, Scanner([], 0), Matches(text, 0));
    s.parts + PlainBetween(text, s.cursor, |text|)
  }

  lemma Prepend(text: Text, from: nat, part: Part, rest: seq<Part>)
    requires Fits(text, from, part) && Describes(text, from + |part.value|, rest)
    requires part.username.None? && rest != [] ==> rest[0].username.Some?
    ensures Describes(text, from, [part] + rest)
  {
    assert ([part] + rest)[1..] == rest;
  }

  lemma PrependPlain(text: Text, from: nat, start: nat, rest: seq<Part>)
    requires from <= start <= |text| && IsPlain(text, from, start) && Describes(text, start, rest)
    requires rest != [] ==> rest[0].username.Some?
    ensures Describes(text, from, PlainBetween(text, from, start) + rest)
  {
    if from < start {
      Prepend(text, from, Part(Slice(text, from, start), None), rest);
    } else {
      assert PlainBetween(text, from, start) + rest == rest;
    }
  }

  lemma MentionFits(text: Text, start: nat)
    requires IsMention(text, start)
    ensures var u := UsernameAt(text, start);
            var end := start + 1 + |u|;
            Fits(text, start, MentionPart(u)) && end <= |text| && !IsMention(text, end)
  {
    WordRunIsMaximal(text, start + 1);
  }

  /** The mention that `Exec` finds, with the plain text before it and a decomposition of what follows. */
  lemma DescribesTurn(text: Text, cursor: nat, start: nat, u: Text, rest: seq<Part>)
    requires cursor <= start && IsMention(text, start) && u == UsernameAt(text, start)
    requires IsPlain(text, cursor, start) && Describes(text, start + |u| + 1, rest)
    ensures Describes(text, cursor, PlainBetween(text, cursor, start) + ([MentionPart(u)] + rest))
  {
    MentionFits(text, start);
    Prepend(text, start, MentionPart(u), rest);
    PrependPlain(text, cursor, start, [MentionPart(u)] + rest);
  }

  lemma Regroup(a: seq<Part>, b: seq<Part>, c: seq<Part>, d: seq<Part>)
    ensures a + b + c + d == a + (b + (c + d))
  {
  }

  lemma NextMention(text: Text, cursor: nat, m: Match)
    requires cursor <= |text| && Exec(text, cursor) == Some(m)
    requires !(cursor > 0 && IsMention(text, cursor))
    ensures cursor <= m.Start() < m.End() <= |text| && !IsMention(text, m.End()) && m.username != []
    ensures IsMention(text, m.Start()) && m.username == UsernameAt(text, m.Start())
    ensures IsPlain(text, cursor, m.Start())
  {
    ExecFindsNext(text, cursor);
    MentionFits(text, m.Start());
  }

  lemma PlainRest(text: Text, cursor: nat)
    requires cursor <= |text| && Exec(text, cursor) == None
    requires !(cursor > 0 && IsMention(text, cursor))
    ensures Describes(text, cursor, PlainBetween(text, cursor, |text|))
  {
    ExecFindsNext(text, cursor);
    PrependPlain(text, cursor, |text|, []);
    assert PlainBetween(text, cursor, |text|) + [] == PlainBetween(text, cursor, |text|);
  }

  /** Standing just after a mention or at the beginning, the scanner pushes a decomposition of the rest. */
  lemma {:induction false} TurnsDescribe(text: Text, cursor: nat, pushed: seq<Part>) returns (rest: seq<Part>)
    requires cursor <= |text| && !(cursor > 0 && IsMention(text, cursor))
    ensures var s := Turns(text, Scanner(pushed, cursor), Matches(text, cursor));
            s.parts + PlainBetween(text, s.cursor, |text|) == pushed + rest
    ensures Describes(text, cursor, rest)
    decreases |text| - cursor
  {
    if Exec(text, cursor).None? {
      PlainRest(text, cursor);
      rest := PlainBetween(text, cursor, |text|);
    } else {
      var m := Exec(text, cursor).value;
      NextMention(text, cursor, m);
      var plain, mention := PlainBetween(text, cursor, m.Start()), [MentionPart(m.username)];
      var after := TurnsDescribe(text, m.End(), pushed + plain + mention);
      FirstTurn(text, cursor, pushed, m);
      DescribesTurn(text, cursor, m.Start(), m.username, after);
      Regroup(pushed, plain, mention, after);
      rest := plain + (mention + after);
    }
  }

  lemma FirstTurn(text: Text, cursor: nat, pushed: seq<Part>, m: Match)
    requires cursor <= |text| && Exec(text, cursor) == Some(m) && m.username != []
    ensures Turns(text, Scanner(pushed, cursor), Matches(text, cursor)) ==
            Turns(text, Scanner(pushed + PlainBetween(text, cursor, m.Start()) + [MentionPart(m.username)], m.End()),
                  Matches(text, m.End()))
  {
    assert Matches(text, cursor)[1..] == Matches(text, m.End());
  }

  /** Neither guard of the loop ever skips a match: usernames are not empty and matches do not overlap. */
  lemma {:induction false} GuardsNeverFire(text: Text, from: nat)
    requires from <= |text|
    ensures forall i :: 0 <= i < |Matches(text, from)| ==> from <= Matches(text, from)[i].Start()
    ensures forall i :: 0 <= i < |Matches(text, from)| ==> Matches(text, from)[i].username != []
    ensures forall i, j :: 0 <= i < j < |Matches(text, from)| ==>
              Matches(text, from)[i].End() <= Matches(text, from)[j].Start()
    decreases |text| - from
  {
    if Exec(text, from).Some? {
      GuardsNeverFire(text, Exec(text, from).value.End());
    }
  }

  /** The scanner's output is the decomposition of the text: lossless, exact and, by the lemmas above, the only one. */
  lemma {:induction false} ScanIsTheDecomposition(text: Text)
    ensures Describes(text, 0, Scan(text))
    ensures Concat(Scan(text)) == text
    ensures MentionOffsets(Scan(text), 0) == set p: nat | 0 <= p < |text| && IsMention(text, p)
  {
    var parts := TurnsDescribe(text, 0, []);
    assert [] + parts == parts;
    DescribesIsLossless(text, 0, parts);
    DescribesFindsExactlyTheMentions(text, 0, parts);
  }

  /** The loop over the matches computes `Scan`, so its result is the decomposition. */
  method Parts(text: Text) returns (result: seq<Part>)
    ensures result == Scan(text)
    ensures Describes(text, 0, result) && Concat(result) == text
    ensures MentionOffsets(result, 0) == set p: nat | 0 <= p < |text| && IsMention(text, p)
  {
    result := [];
    var cursor: nat := 0;
    var matches := Matches(text, 0);
    assert matches[0..] == matches;
    for i := 0 to |matches|
      invariant Turns(text, Scanner(result, cursor), matches[i..]) == Turns(text, Scanner([], 0), matches)
    {
      var username, start := matches[i].username, matches[i].Start();
      assert matches[i..][1..] == matches[i + 1..];
      ghost var turned := Turn(text, Scanner(result, cursor), matches[i]);
      if username == [] || start < cursor {
        continue;
      }
      if start > cursor {
        result := result + [Part(Slice(text, cursor, start), None)];
      }
      result := result + [MentionPart(username)];
      cursor := start + |username| + 1;
      assert Scanner(result, cursor) == turned;
    }
    if cursor < |text| {
      result := result + [Part(Slice(text, cursor, |text|), None)];
    }
    ScanIsTheDecomposition(text);
  }

  /** No part is empty and no two plain parts are neighbours. */
  lemma {:induction false} PartsAreCanonical(text: Text, from: nat, parts: seq<Part>)
    requires Describes(text, from, parts)
    ensures forall i :: 0 <= i < |parts| ==> parts[i].value != []
    ensures forall i :: 0 < i < |parts| ==> parts[i - 1].username.Some? || parts[i].username.Some?
    decreases |parts|
  {
    if parts != [] {
      var rest := parts[1..];
      PartsAreCanonical(text, from + |parts[0].value|, rest);
      assert forall i :: 0 < i < |parts| ==> parts[i] == rest[i - 1];
    }
  }
}
