/** Shared vocabulary: optional values, JavaScript text, and `String.prototype.trim`. */
module Common {

  datatype Option<+T> = None | Some(value: T)

  /** One UTF-16 code unit, the unit in which JavaScript counts and slices text. */
  newtype CodeUnit = u: int | 0 <= u < 0x1_0000

  type Text = seq<CodeUnit>

  /** WhiteSpace and LineTerminator of ECMAScript, the characters that `trim` removes. */
  predicate IsSpace(c: CodeUnit) {
    9 <= c <= 13 || c == 0x20 || c == 0xA0 || c == 0x1680 || 0x2000 <= c <= 0x200A ||
    c == 0x2028 || c == 0x2029 || c == 0x202F || c == 0x205F || c == 0x3000 || c == 0xFEFF
  }

  function TrimStart(t: Text): Text {
    if t != [] && IsSpace(t[0]) then TrimStart(t[1..]) else t
  }

  function TrimEnd(t: Text): Text {
    if t != [] && IsSpace(t[|t| - 1]) then TrimEnd(t[..|t| - 1]) else t
  }

  function Trim(t: Text): Text {
    TrimEnd(TrimStart(t))
  }

  lemma {:induction false} TrimStartIs(t: Text) returns (n: nat)
    ensures n <= |t| && TrimStart(t) == t[n..]
    ensures forall i :: 0 <= i < n ==> IsSpace(t[i])
    ensures n < |t| ==> !IsSpace(t[n])
  {
    if t != [] && IsSpace(t[0]) {
      var m := TrimStartIs(t[1..]);
      n := m + 1;
    } else {
      n := 0;
    }
  }

  lemma {:induction false} TrimEndIs(t: Text) returns (n: nat)
    ensures n <= |t| && TrimEnd(t) == t[..n]
    ensures forall i :: n <= i < |t| ==> IsSpace(t[i])
    ensures n > 0 ==> !IsSpace(t[n - 1])
  {
    if t != [] && IsSpace(t[|t| - 1]) {
      n := TrimEndIs(t[..|t| - 1]);
    } else {
      n := |t|;
    }
  }

  /** Trimming keeps the stretch from the first to the last character that is not space. */
  lemma {:induction false} TrimIs(t: Text) returns (from: nat, to: nat)
    ensures from <= to <= |t| && Trim(t) == t[from..to]
    ensures forall i :: 0 <= i < from || to <= i < |t| ==> IsSpace(t[i])
    ensures from < to ==> !IsSpace(t[from]) && !IsSpace(t[to - 1])
  {
    from := TrimStartIs(t);
    var n := TrimEndIs(t[from..]);
    to := from + n;
    assert forall i :: to <= i < |t| ==> t[i] == t[from..][i - from];
  }

  ghost predicate NoDuplicates<T(!new)>(s: seq<T>) {
    forall i, j :: 0 <= i < j < |s| ==> s[i] != s[j]
  }

  /** A duplicate-free sequence has as many entries as distinct values. */
  lemma {:induction false} DistinctCount<T(!new)>(s: seq<T>)
    requires NoDuplicates(s)
    ensures |set x | x in s| == |s|
  {
    if s != [] {
      var init, last := s[..|s| - 1], s[|s| - 1];
      DistinctCount(init);
      assert (set x | x in s) == (set x | x in init) + {last};
    }
  }
}
