/** Names and paths of a private sticker pack, and what a manifest says of it. */
module StickerPaths {
  import opened Common

  const FORMAT := "KNOWSTICKER_V1"

  datatype Item = Item(id: string, uri: string, name: Text, mime: string)

  datatype Pack = Pack(id: string, name: Text, createdAt: string, format: string, items: seq<Item>)

  datatype Entry = Entry(filename: string, name: Text, mime: string, index: nat)

  datatype Manifest = Manifest(format: string, version: nat, id: string, name: Text, files: seq<Entry>)

  // ---------------------------------------------------------------- identifiers

  predicate IsIdChar(c: char) {
    'a' <= c <= 'z' || '0' <= c <= '9' || c == '-'
  }

  /** `/^ks-[a-z0-9-]+$/` */
  predicate ValidId(id: string) {
    |id| > 3 && id[..3] == "ks-" && forall i :: 3 <= i < |id| ==> IsIdChar(id[i])
  }

  lemma ValidIdHasNoSlash(id: string)
    requires ValidId(id)
    ensures '/' !in id
  {
    forall i | 0 <= i < |id| ensures id[i] != '/' {
      if i < 3 {
        assert id[i] == id[..3][i];
      }
    }
  }

  // ---------------------------------------------------------------- file names

  function Digit(d: nat): char
    requires d < 10
  {
    "0123456789"[d]
  }

  /** `String(n)` */
  function Decimal(n: nat): string {
    if n < 10 then [Digit(n)] else Decimal(n / 10) + [Digit(n % 10)]
  }

  /** `s.padStart(width, '0')` */
  function PadStart(s: string, width: nat): string
    decreases width - |s|
  {
    if |s| >= width then s else PadStart("0" + s, width)
  }

  function Filename(index: nat): string {
    PadStart(Decimal(index), 3) + ".webp"
  }

  /** The number that a string of digits denotes. */
  function Value(s: string): nat {
    if s == [] then 0 else
      Value(s[..|s| - 1]) * 10 + if '0' <= s[|s| - 1] <= '9' then s[|s| - 1] as int - '0' as int else 0
  }

  lemma {:induction false} ValueOfDecimal(n: nat)
    ensures Value(Decimal(n)) == n
  {
    if n >= 10 {
      ValueOfDecimal(n / 10);
      assert Decimal(n)[..|Decimal(n)| - 1] == Decimal(n / 10);
    } else {
      assert Decimal(n)[..0] == [];
    }
  }

  lemma {:induction false} LeadingZero(s: string)
    ensures Value("0" + s) == Value(s)
  {
    if s == [] {
      assert "0" + s == "0" && "0"[..0] == [];
    } else {
      LeadingZero(s[..|s| - 1]);
      assert ("0" + s)[..|s|] == "0" + s[..|s| - 1];
    }
  }

  lemma {:induction false} ValueOfPadded(s: string, width: nat)
    ensures Value(PadStart(s, width)) == Value(s)
    decreases width - |s|
  {
    if |s| < width {
      LeadingZero(s);
      ValueOfPadded("0" + s, width);
    }
  }

  function Zeros(n: nat): string {
    if n == 0 then "" else "0" + Zeros(n - 1)
  }

  lemma {:induction false} ZerosThenZero(n: nat, s: string)
    ensures Zeros(n) + ("0" + s) == "0" + Zeros(n) + s
  {
    if n > 0 {
      ZerosThenZero(n - 1, s);
      assert Zeros(n) + ("0" + s) == "0" + (Zeros(n - 1) + ("0" + s));
    }
  }

  /** Padding puts zeros in front up to the width, and leaves a longer string alone. */
  lemma {:induction false} PadStartIs(s: string, width: nat)
    ensures PadStart(s, width) == Zeros(if |s| < width then width - |s| else 0) + s
    decreases width - |s|
  {
    if |s| < width {
      PadStartIs("0" + s, width);
      ZerosThenZero(width - |s| - 1, s);
    }
  }

  /** The digits of the number, without a leading zero unless it is zero. */
  lemma {:induction false} DecimalIs(n: nat)
    ensures Decimal(n) != [] && (n > 0 ==> Decimal(n)[0] != '0')
    ensures forall i :: 0 <= i < |Decimal(n)| ==> '0' <= Decimal(n)[i] <= '9'
  {
    if n >= 10 {
      DecimalIs(n / 10);
    }
  }

  /** A sticker's file name is its index in digits, padded with zeros to three, and the extension. */
  lemma {:induction false} FilenameIs(index: nat)
    ensures exists zeros: nat, digits: string ::
      && Filename(index) == Zeros(zeros) + digits + ".webp"
      && Value(digits) == index && (index > 0 ==> digits[0] != '0') && digits != []
      && (forall i :: 0 <= i < |digits| ==> '0' <= digits[i] <= '9')
      && zeros == if |digits| < 3 then 3 - |digits| else 0
  {
    var digits := Decimal(index);
    PadStartIs(digits, 3);
    DecimalIs(index);
    ValueOfDecimal(index);
    assert Filename(index) == Zeros(if |digits| < 3 then 3 - |digits| else 0) + digits + ".webp";
  }

  /** Different stickers get different file names, whatever their number. */
  lemma {:induction false} FilenameInjective(i: nat, j: nat)
    requires Filename(i) == Filename(j)
    ensures i == j
  {
    var a, b := PadStart(Decimal(i), 3), PadStart(Decimal(j), 3);
    assert a == Filename(i)[..|Filename(i)| - 5] && b == Filename(j)[..|Filename(j)| - 5];
    ValueOfPadded(Decimal(i), 3);
    ValueOfPadded(Decimal(j), 3);
    ValueOfDecimal(i);
    ValueOfDecimal(j);
  }

  // ---------------------------------------------------------------- paths

  function Root(dir: string, id: string): string {
    dir + id + "/"
  }

  function StickerPath(dir: string, id: string, index: nat): string {
    Root(dir, id) + Filename(index)
  }

  function ManifestPath(dir: string, id: string): string {
    Root(dir, id) + "manifest.knowsticker"
  }

  /** Everything of a pack lies in the directory named after it. */
  lemma PathsAre(dir: string, id: string, index: nat)
    ensures StickerPath(dir, id, index) == dir + id + "/" + Filename(index)
    ensures ManifestPath(dir, id) == dir + id + "/manifest.knowsticker"
  {
    assert dir + id + "/" + "manifest.knowsticker" == dir + id + "/manifest.knowsticker";
  }

  lemma SlashInside(dir: string, a: string, b: string, path: string)
    requires Root(dir, a) <= path && Root(dir, b) <= path && |a| < |b|
    ensures '/' in b
  {
    var ra, rb, n := Root(dir, a), Root(dir, b), |dir|;
    assert b[|a|] == rb[n + |a|] == path[n + |a|] == ra[n + |a|] == '/';
  }

  lemma SameLengthSameId(dir: string, a: string, b: string, path: string)
    requires Root(dir, a) <= path && Root(dir, b) <= path && |a| == |b|
    ensures a == b
  {
    var ra, rb, n := Root(dir, a), Root(dir, b), |dir|;
    forall i | 0 <= i < |a| ensures a[i] == b[i] {
      assert a[i] == ra[n + i] == path[n + i] == rb[n + i] == b[i];
    }
  }

  /** The directories of two packs share no path, so deleting one leaves the other alone. */
  lemma RootsShareNoPath(dir: string, a: string, b: string, path: string)
    requires ValidId(a) && ValidId(b) && Root(dir, a) <= path && Root(dir, b) <= path
    ensures a == b
  {
    ValidIdHasNoSlash(a);
    ValidIdHasNoSlash(b);
    if |a| < |b| {
      SlashInside(dir, a, b, path);
    } else if |b| < |a| {
      SlashInside(dir, b, a, path);
    } else {
      SameLengthSameId(dir, a, b, path);
    }
  }

  lemma ManifestIsNoSticker(dir: string, id: string, index: nat)
    ensures ManifestPath(dir, id) != StickerPath(dir, id, index)
  {
    var m, s := ManifestPath(dir, id), StickerPath(dir, id, index);
    assert m[|m| - 1] == 'r' && s[|s| - 1] == 'p';
  }

  // ---------------------------------------------------------------- manifests

  /** `s.slice(n)` */
  function SliceFrom(s: string, n: nat): string {
    if n <= |s| then s[n..] else ""
  }

  function EntriesOf(root: string, items: seq<Item>): seq<Entry> {
    if items == [] then [] else
      var last := |items| - 1;
      EntriesOf(root, items[..last])
      + [Entry(SliceFrom(items[last].uri, |root|), items[last].name, items[last].mime, last)]
  }

  function ManifestOf(dir: string, p: Pack): Manifest {
    Manifest(FORMAT, 1, p.id, p.name, EntriesOf(Root(dir, p.id), p.items))
  }

  /** The manifest lists the sticker files, and nothing else, in order. */
  ghost predicate Lists(dir: string, m: Manifest, p: Pack) {
    && |m.files| == |p.items|
    && forall i :: 0 <= i < |p.items| ==> m.files[i].index == i && Root(dir, p.id) + m.files[i].filename == p.items[i].uri
  }

  ghost predicate UrisInPlace(dir: string, p: Pack) {
    forall i :: 0 <= i < |p.items| ==> p.items[i].uri == StickerPath(dir, p.id, i)
  }

  lemma {:induction false} EntriesMatch(root: string, items: seq<Item>)
    ensures var es := EntriesOf(root, items);
            && |es| == |items|
            && forall i :: 0 <= i < |items| ==>
                 es[i] == Entry(SliceFrom(items[i].uri, |root|), items[i].name, items[i].mime, i)
  {
    if items != [] {
      EntriesMatch(root, items[..|items| - 1]);
    }
  }

  /** Putting the directory back before each listed file name gives the pack's URIs. */
  lemma ManifestRoundTrip(dir: string, p: Pack)
    requires UrisInPlace(dir, p)
    ensures Lists(dir, ManifestOf(dir, p), p)
    ensures var m := ManifestOf(dir, p);
            && m.format == "KNOWSTICKER_V1" && m.version == 1 && m.id == p.id && m.name == p.name
            && forall i :: 0 <= i < |p.items| ==>
                 m.files[i] == Entry(Filename(i), p.items[i].name, p.items[i].mime, i)
  {
    var root := Root(dir, p.id);
    EntriesMatch(root, p.items);
    forall i | 0 <= i < |p.items|
      ensures root + EntriesOf(root, p.items)[i].filename == p.items[i].uri
      ensures EntriesOf(root, p.items)[i].filename == Filename(i)
    {
      assert p.items[i].uri == root + Filename(i);
      assert p.items[i].uri[|root|..] == Filename(i);
    }
  }
}
