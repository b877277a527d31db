/**
 Private sticker packs as values: what is registered, what is on disk, and what each operation makes of both
 for every fate of the calls it awaits. Every awaited call may succeed, throw, or be the last thing the
 process does.
 */
module StickerPacks {
  import opened Common
  import opened StickerPaths

  const MAX_STICKER_SIZE := 8 * 1024 * 1024

  datatype File = Sticker(size: nat) | ManifestFile(manifest: Manifest)

  type Files = map<string, File>

  /** What the registry key holds: nothing, text that is no list of packs, or a list. */
  datatype Stored = Missing | Unreadable | Packs(packs: seq<Pack>)

  /** A picked medium, with the file and size that the native converter makes of it. */
  datatype Media = Media(name: Text, mime: string, converted: string, size: nat)

  /** How a call ends: with a value, with an exception, or with the process. */
  datatype Outcome<+T> = Done(value: T) | Threw | Crashed

  /** What becomes of an awaited call; it may throw, or be the last thing the process does, before or after it took effect. */
  datatype Fate = Works | Throws | ThrowsAfter | Crashes | CrashesAfter

  predicate TookEffect(f: Fate) {
    f == Works || f == ThrowsAfter || f == CrashesAfter
  }

  predicate Fails(f: Fate) {
    f == Throws || f == ThrowsAfter
  }

  predicate Dies(f: Fate) {
    f == Crashes || f == CrashesAfter
  }

  function Ended<T>(f: Fate, value: T): Outcome<T> {
    if f == Works then Done(value) else if Fails(f) then Threw else Crashed
  }

  function OfFormat(packs: seq<Pack>): seq<Pack> {
    if packs == [] then [] else
      (if packs[0].format == FORMAT then [packs[0]] else []) + OfFormat(packs[1..])
  }

  /** The packs that `readKnowStickerPacks` finds. */
  function Registered(s: Stored): seq<Pack> {
    if s.Packs? then OfFormat(s.packs) else []
  }

  /** What a read of the registry with that fate makes of it: a failure looks like no packs. */
  function ReadBy(f: Fate, s: Stored): seq<Pack> {
    if f == Works then Registered(s) else []
  }

  function Find(packs: seq<Pack>, id: string): Option<Pack> {
    if packs == [] then None else if packs[0].id == id then Some(packs[0]) else Find(packs[1..], id)
  }

  function Replaced(packs: seq<Pack>, updated: Pack): seq<Pack> {
    if packs == [] then [] else
      [if packs[0].id == updated.id then updated else packs[0]] + Replaced(packs[1..], updated)
  }

  function WithoutPack(packs: seq<Pack>, id: string): seq<Pack> {
    if packs == [] then [] else (if packs[0].id != id then [packs[0]] else []) + WithoutPack(packs[1..], id)
  }

  function RenamedItems(items: seq<Item>, itemId: string, name: Text): seq<Item> {
    if items == [] then [] else
      [if items[0].id == itemId then items[0].(name := name) else items[0]] + RenamedItems(items[1..], itemId, name)
  }

  function FindItem(items: seq<Item>, itemId: string): Option<Item> {
    if items == [] then None else if items[0].id == itemId then Some(items[0]) else FindItem(items[1..], itemId)
  }

  // ---------------------------------------------------------------- consistency

  /** What is on disk of the pack is right: sticker files where its items say, and a manifest that lists them in order. */
  ghost predicate RightPart(dir: string, p: Pack, files: Files) {
    && ValidId(p.id) && p.format == FORMAT && UrisInPlace(dir, p)
    && (forall i :: 0 <= i < |p.items| && p.items[i].uri in files ==> files[p.items[i].uri].Sticker?)
    && var m := ManifestPath(dir, p.id);
       m in files ==> files[m].ManifestFile? && Lists(dir, files[m].manifest, p)
  }

  /** All the pack's sticker files are present and its manifest lists exactly them, in order. */
  ghost predicate Intact(dir: string, p: Pack, files: Files) {
    && RightPart(dir, p, files)
    && ManifestPath(dir, p.id) in files
    && forall i :: 0 <= i < |p.items| ==> p.items[i].uri in files
  }

  ghost predicate DistinctIds(packs: seq<Pack>) {
    forall i, j :: 0 <= i < j < |packs| ==> packs[i].id != packs[j].id
  }

  ghost predicate Sound(dir: string, packs: seq<Pack>, files: Files) {
    DistinctIds(packs) && forall p :: p in packs ==> RightPart(dir, p, files)
  }

  /** The registered packs of which a file is missing. */
  ghost function Lost(dir: string, packs: seq<Pack>, files: Files): set<string> {
    set p | p in packs && !Intact(dir, p, files) :: p.id
  }

  ghost predicate Consistent(dir: string, packs: seq<Pack>, files: Files) {
    DistinctIds(packs) && forall p :: p in packs ==> Intact(dir, p, files)
  }

  lemma ConsistentIffNothingLost(dir: string, packs: seq<Pack>, files: Files)
    ensures Consistent(dir, packs, files) <==> Sound(dir, packs, files) && Lost(dir, packs, files) == {}
  {
    forall p | p in packs && !Intact(dir, p, files) ensures p.id in Lost(dir, packs, files) {
    }
  }

  /** As identifiers are distinct, the lost identifiers tell which packs are intact. */
  lemma IntactIffNotLost(dir: string, packs: seq<Pack>, files: Files)
    requires DistinctIds(packs)
    ensures forall p :: p in packs ==> (Intact(dir, p, files) <==> p.id !in Lost(dir, packs, files))
  {
    forall p, q | p in packs && q in packs && p.id == q.id ensures p == q {
      var i :| 0 <= i < |packs| && packs[i] == p;
      var j :| 0 <= j < |packs| && packs[j] == q;
    }
  }

  /** The manifest is exactly the image of the registered pack, names included. */
  ghost predicate Agrees(dir: string, p: Pack, files: Files) {
    var m := ManifestPath(dir, p.id);
    m in files && files[m] == ManifestFile(ManifestOf(dir, p))
  }

  ghost predicate AllAgree(dir: string, packs: seq<Pack>, files: Files) {
    forall p :: p in packs ==> Agrees(dir, p, files)
  }

  predicate Same(path: string, a: Files, b: Files) {
    (path in a <==> path in b) && (path in a ==> a[path] == b[path])
  }

  ghost predicate OnlyUnder(root: string, before: Files, after: Files) {
    forall path :: !(root <= path) ==> Same(path, before, after)
  }

  ghost predicate OnlyAt(at: string, before: Files, after: Files) {
    forall path :: path != at ==> Same(path, before, after)
  }

  lemma PutOnlyAt(at: string, files: Files, file: File)
    ensures OnlyAt(at, files, files[at := file])
  {
    var after := files[at := file];
    assert forall path :: path != at ==> Same(path, files, after);
  }

  predicate IsUnregistered(id: string, s: Stored) {
    forall p :: p in Registered(s) ==> p.id != id
  }

  /** An identifier that nothing uses yet, as `safeId` draws them. */
  predicate Unused(dir: string, id: string, packs: seq<Pack>, files: Files) {
    ValidId(id) && (forall p :: p in packs ==> p.id != id) && forall path :: path in files ==> !(Root(dir, id) <= path)
  }

  /** The files of a pack of that many stickers: one for each, all different, and the manifest. */
  function PackPaths(dir: string, id: string, n: nat): set<string> {
    StickerPathsOf(dir, id, n) + {ManifestPath(dir, id)}
  }

  lemma IntactIff(dir: string, p: Pack, files: Files)
    requires RightPart(dir, p, files)
    ensures Intact(dir, p, files) <==> PackPaths(dir, p.id, |p.items|) <= files.Keys
  {
    forall path ensures path in StickerPathsOf(dir, p.id, |p.items|)
                        <==> exists i :: 0 <= i < |p.items| && path == p.items[i].uri
    {
      InStickerPaths(dir, p.id, |p.items|, path);
    }
  }

  /** What happens under the directory of one pack leaves the others as they are. */
  lemma IntactElsewhere(dir: string, id: string, p: Pack, before: Files, after: Files)
    requires ValidId(id) && RightPart(dir, p, before) && p.id != id && OnlyUnder(Root(dir, id), before, after)
    ensures RightPart(dir, p, after) && (Intact(dir, p, after) <==> Intact(dir, p, before))
    ensures Agrees(dir, p, before) <==> Agrees(dir, p, after)
  {
    forall path | Root(dir, p.id) <= path ensures Same(path, before, after) {
      if Root(dir, id) <= path {
        RootsShareNoPath(dir, id, p.id, path);
      }
    }
    assert Root(dir, p.id) <= ManifestPath(dir, p.id);
    assert Same(ManifestPath(dir, p.id), before, after);
    forall i | 0 <= i < |p.items| ensures Same(p.items[i].uri, before, after) {
      assert Root(dir, p.id) <= StickerPath(dir, p.id, i);
    }
  }

  /** So whatever happens under the directory of an unregistered pack concerns no registered one. */
  lemma SoundElsewhere(dir: string, id: string, packs: seq<Pack>, before: Files, after: Files)
    requires ValidId(id) && Sound(dir, packs, before) && OnlyUnder(Root(dir, id), before, after)
    requires forall p :: p in packs ==> p.id != id
    ensures Sound(dir, packs, after) && Lost(dir, packs, after) == Lost(dir, packs, before)
    ensures AllAgree(dir, packs, before) ==> AllAgree(dir, packs, after)
  {
    forall p | p in packs
      ensures RightPart(dir, p, after) && (Intact(dir, p, after) <==> Intact(dir, p, before))
      ensures Agrees(dir, p, before) <==> Agrees(dir, p, after)
    {
      IntactElsewhere(dir, id, p, before, after);
    }
  }

  // ---------------------------------------------------------------- lists of packs

  lemma {:induction false} OfFormatKeeps(packs: seq<Pack>)
    ensures forall p :: p in OfFormat(packs) ==> p in packs && p.format == FORMAT
    ensures (forall p :: p in packs ==> p.format == FORMAT) ==> OfFormat(packs) == packs
  {
    if packs != [] {
      OfFormatKeeps(packs[1..]);
      assert packs == [packs[0]] + packs[1..];
    }
  }

  /** Reading keeps the packs of the format, in order. */
  lemma {:induction false} OfFormatConcat(a: seq<Pack>, b: seq<Pack>)
    ensures OfFormat(a + b) == OfFormat(a) + OfFormat(b)
  {
    if a == [] {
      assert a + b == b;
    } else {
      OfFormatConcat(a[1..], b);
      assert (a + b)[0] == a[0] && (a + b)[1..] == a[1..] + b;
      RegroupPacks(if a[0].format == FORMAT then [a[0]] else [], OfFormat(a[1..]), OfFormat(b));
    }
  }

  lemma RegroupPacks(a: seq<Pack>, b: seq<Pack>, c: seq<Pack>)
    ensures a + (b + c) == a + b + c
  {
  }

  lemma OfFormatOfOne(p: Pack)
    ensures OfFormat([p]) == if p.format == "KNOWSTICKER_V1" then [p] else []
  {
  }

  /** The first pack with the identifier, if there is one. */
  lemma {:induction false} FindIsFirst(packs: seq<Pack>, id: string)
    ensures match Find(packs, id)
            case Some(p) => exists i :: 0 <= i < |packs| && packs[i] == p && p.id == id
                                        && forall j :: 0 <= j < i ==> packs[j].id != id
            case None => forall j :: 0 <= j < |packs| ==> packs[j].id != id
  {
    if packs != [] && packs[0].id != id {
      FindIsFirst(packs[1..], id);
      if Find(packs, id).Some? {
        var i :| 0 <= i < |packs[1..]| && packs[1..][i] == Find(packs, id).value
                 && forall j :: 0 <= j < i ==> packs[1..][j].id != id;
        assert packs[i + 1] == Find(packs, id).value;
        assert forall j :: 0 < j < i + 1 ==> packs[j] == packs[1..][j - 1];
      } else {
        assert forall j :: 0 < j < |packs| ==> packs[j] == packs[1..][j - 1];
      }
    }
  }

  lemma {:induction false} FindIsThere(packs: seq<Pack>, id: string)
    ensures match Find(packs, id)
            case Some(p) => p in packs && p.id == id
            case None => forall p :: p in packs ==> p.id != id
  {
    if packs != [] {
      FindIsThere(packs[1..], id);
      assert packs == [packs[0]] + packs[1..];
    }
  }

  /** Order and identifiers stay; only the pack with the updated one's identifier is exchanged. */
  lemma {:induction false} ReplacedKeeps(packs: seq<Pack>, updated: Pack)
    ensures |Replaced(packs, updated)| == |packs|
    ensures forall i :: 0 <= i < |packs| ==>
              && Replaced(packs, updated)[i] == (if packs[i].id == updated.id then updated else packs[i])
              && Replaced(packs, updated)[i].id == packs[i].id
  {
    if packs != [] {
      ReplacedKeeps(packs[1..], updated);
    }
  }

  lemma {:induction false} WithoutPackKeeps(packs: seq<Pack>, id: string)
    ensures forall p :: p in WithoutPack(packs, id) <==> p in packs && p.id != id
    ensures DistinctIds(packs) ==> DistinctIds(WithoutPack(packs, id))
  {
    if packs != [] {
      var rest := packs[1..];
      WithoutPackKeeps(rest, id);
      assert packs == [packs[0]] + rest;
      if DistinctIds(packs) {
        assert DistinctIds(rest);
        assert forall p :: p in rest ==> p.id != packs[0].id;
      }
    }
  }

  /** The packs without the one of that identifier, in their order. */
  ghost predicate TakenOut(before: seq<Pack>, id: string, after: seq<Pack>) {
    forall i :: 0 <= i < |before| && before[i].id == id ==> after == before[..i] + before[i + 1..]
  }

  /** The pack is taken out of its place, and the others keep their order. */
  lemma {:induction false} WithoutPackCuts(packs: seq<Pack>, id: string, i: nat)
    requires DistinctIds(packs) && i < |packs| && packs[i].id == id
    ensures WithoutPack(packs, id) == packs[..i] + packs[i + 1..]
  {
    var rest := packs[1..];
    if i == 0 {
      NothingToTakeOut(rest, id);
      assert [] + rest == packs[..0] + packs[1..];
    } else {
      WithoutPackCuts(rest, id, i - 1);
      assert packs[0].id != id;
      assert [packs[0]] + (rest[..i - 1] + rest[i..]) == packs[..i] + packs[i + 1..];
    }
  }

  lemma {:induction false} NothingToTakeOut(packs: seq<Pack>, id: string)
    requires forall i :: 0 <= i < |packs| ==> packs[i].id != id
    ensures WithoutPack(packs, id) == packs
  {
    if packs != [] {
      NothingToTakeOut(packs[1..], id);
      assert packs == [packs[0]] + packs[1..];
    }
  }

  /** Item identifiers and URIs stay; only names change. */
  lemma {:induction false} RenamedItemsKeep(items: seq<Item>, itemId: string, name: Text)
    ensures |RenamedItems(items, itemId, name)| == |items|
    ensures forall i :: 0 <= i < |items| ==>
              RenamedItems(items, itemId, name)[i] ==
              if items[i].id == itemId then items[i].(name := name) else items[i]
  {
    if items != [] {
      RenamedItemsKeep(items[1..], itemId, name);
    }
  }

  // ---------------------------------------------------------------- the effect of each write

  /** The two packs differ at most in names. */
  ghost predicate OnlyNamesDiffer(p: Pack, q: Pack) {
    && q == p.(name := q.name, items := q.items) && |q.items| == |p.items|
    && forall i :: 0 <= i < |p.items| ==> q.items[i] == p.items[i].(name := q.items[i].name)
  }

  function WithManifest(dir: string, p: Pack, files: Files): Files {
    files[ManifestPath(dir, p.id) := ManifestFile(ManifestOf(dir, p))]
  }

  /** The pack with the identifier of `q` now has the given name, and its manifest with it if that is a change. */
  ghost predicate PackRenamed(dir: string, before: seq<Pack>, after: seq<Pack>, files: Files, name: Text, q: Pack) {
    exists p | p in before && p.id == q.id ::
      q == p.(name := name) && after == Replaced(before, q) && (p.name == name || Agrees(dir, q, files))
  }

  /** The same for the first item with the identifier, whose old name alone decides if anything is written. */
  ghost predicate ItemRenamed(
      dir: string, before: seq<Pack>, after: seq<Pack>, files: Files, itemId: string, name: Text, q: Pack)
  {
    exists p | p in before && p.id == q.id && FindItem(p.items, itemId).Some? ::
      if FindItem(p.items, itemId).value.name == name then q == p && after == before
      else q == p.(items := RenamedItems(p.items, itemId, name)) && after == Replaced(before, q) && Agrees(dir, q, files)
  }

  lemma ManifestOnlyUnder(dir: string, p: Pack, files: Files)
    ensures OnlyUnder(Root(dir, p.id), files, WithManifest(dir, p, files))
  {
    assert Root(dir, p.id) <= ManifestPath(dir, p.id);
  }

  predicate HasManifest(dir: string, id: string, files: Files) {
    ValidId(id) && ManifestPath(dir, id) in files && files[ManifestPath(dir, id)].ManifestFile?
  }

  /** Either pack may be registered while the manifest of either is on disk. */
  lemma RenamingKeepsIntact(dir: string, p: Pack, q: Pack, r: Pack, files: Files)
    requires RightPart(dir, p, files) && OnlyNamesDiffer(p, q) && (r == p || r == q) && HasManifest(dir, p.id, files)
    ensures RightPart(dir, r, files) && (Intact(dir, r, files) <==> Intact(dir, p, files))
    ensures RightPart(dir, r, WithManifest(dir, q, files))
    ensures Intact(dir, r, WithManifest(dir, q, files)) <==> Intact(dir, p, files)
    ensures Agrees(dir, q, WithManifest(dir, q, files))
  {
    ManifestRoundTrip(dir, q);
    forall i | 0 <= i < |p.items| ensures p.items[i].uri != ManifestPath(dir, p.id) {
      ManifestIsNoSticker(dir, p.id, i);
    }
  }

  /** Pack by pack the same ones are intact. */
  lemma LostAlike(dir: string, packs: seq<Pack>, files: Files, packs': seq<Pack>, files': Files)
    requires Sound(dir, packs, files) && |packs| == |packs'|
    requires forall i :: 0 <= i < |packs| ==>
               && packs'[i].id == packs[i].id && RightPart(dir, packs'[i], files')
               && (Intact(dir, packs'[i], files') <==> Intact(dir, packs[i], files))
    ensures Sound(dir, packs', files') && Lost(dir, packs', files') == Lost(dir, packs, files)
  {
    forall id ensures id in Lost(dir, packs', files') <==> id in Lost(dir, packs, files) {
      if id in Lost(dir, packs', files') {
        var i :| 0 <= i < |packs'| && packs'[i].id == id && !Intact(dir, packs'[i], files');
        assert packs[i] in packs;
      }
      if id in Lost(dir, packs, files) {
        var i :| 0 <= i < |packs| && packs[i].id == id && !Intact(dir, packs[i], files);
        assert packs'[i] in packs';
      }
    }
  }

  /** A rename stopped anywhere, with the manifest written or not and the registry written or not. */
  lemma RenamingKeepsSound(
      dir: string, packs: seq<Pack>, files: Files, p: Pack, q: Pack, registered: bool, written: bool)
    requires Sound(dir, packs, files) && p in packs && OnlyNamesDiffer(p, q) && HasManifest(dir, p.id, files)
    ensures var packs', files' := if registered then Replaced(packs, q) else packs,
                                  if written then WithManifest(dir, q, files) else files;
            Sound(dir, packs', files') && Lost(dir, packs', files') == Lost(dir, packs, files)
  {
    var packs', files' := if registered then Replaced(packs, q) else packs,
                          if written then WithManifest(dir, q, files) else files;
    ReplacedKeeps(packs, q);
    ManifestOnlyUnder(dir, q, files);
    forall i | 0 <= i < |packs|
      ensures packs'[i].id == packs[i].id && RightPart(dir, packs'[i], files')
      ensures Intact(dir, packs'[i], files') <==> Intact(dir, packs[i], files)
    {
      if packs[i].id == p.id {
        assert packs[i] == p;
        RenamingKeepsIntact(dir, p, q, packs'[i], files);
      } else {
        IntactElsewhere(dir, q.id, packs[i], files, WithManifest(dir, q, files));
      }
    }
    LostAlike(dir, packs, files, packs', files');
  }

  lemma RenamingKeepsAgreement(dir: string, packs: seq<Pack>, files: Files, p: Pack, q: Pack)
    requires Sound(dir, packs, files) && p in packs && OnlyNamesDiffer(p, q)
    requires AllAgree(dir, packs, files)
    ensures AllAgree(dir, Replaced(packs, q), WithManifest(dir, q, files))
  {
    ReplacedKeeps(packs, q);
    ManifestOnlyUnder(dir, q, files);
    forall r | r in Replaced(packs, q) ensures Agrees(dir, r, WithManifest(dir, q, files)) {
      var i :| 0 <= i < |packs| && Replaced(packs, q)[i] == r;
      if packs[i].id != q.id {
        IntactElsewhere(dir, q.id, r, files, WithManifest(dir, q, files));
      }
    }
  }

  /** Dropping a pack from the registry, its directory still there, going or gone. */
  lemma DeletingKeepsSound(dir: string, packs: seq<Pack>, files: Files, after: Files, id: string)
    requires Sound(dir, packs, files) && ValidId(id) && OnlyUnder(Root(dir, id), files, after)
    ensures Sound(dir, WithoutPack(packs, id), after)
    ensures Lost(dir, WithoutPack(packs, id), after) == Lost(dir, packs, files) - {id}
    ensures AllAgree(dir, packs, files) ==> AllAgree(dir, WithoutPack(packs, id), after)
  {
    WithoutPackKeeps(packs, id);
    SoundElsewhere(dir, id, WithoutPack(packs, id), files, after);
    assert Lost(dir, WithoutPack(packs, id), files) == Lost(dir, packs, files) - {id};
  }

  // ---------------------------------------------------------------- a pack being created

  /** The files after the first converted stickers have been copied. */
  function Filled(dir: string, id: string, files: Files, sizes: seq<nat>): Files {
    if sizes == [] then files else
      var last := |sizes| - 1;
      Filled(dir, id, files, sizes[..last])[StickerPath(dir, id, last) := Sticker(sizes[last])]
  }

  predicate IsStickerPath(dir: string, id: string, n: nat, path: string) {
    exists i: nat :: i < n && path == StickerPath(dir, id, i)
  }

  lemma {:induction false} FilledHolds(dir: string, id: string, files: Files, sizes: seq<nat>)
    ensures Filled(dir, id, files, sizes).Keys == files.Keys + StickerPathsOf(dir, id, |sizes|)
  {
    if sizes != [] {
      FilledHolds(dir, id, files, sizes[..|sizes| - 1]);
    }
  }

  lemma {:induction false} FilledOnlyUnder(dir: string, id: string, files: Files, sizes: seq<nat>)
    ensures OnlyUnder(Root(dir, id), files, Filled(dir, id, files, sizes))
  {
    if sizes != [] {
      var before := Filled(dir, id, files, sizes[..|sizes| - 1]);
      FilledOnlyUnder(dir, id, files, sizes[..|sizes| - 1]);
      assert Root(dir, id) <= StickerPath(dir, id, |sizes| - 1);
      forall path | !(Root(dir, id) <= path) ensures Same(path, files, Filled(dir, id, files, sizes)) {
        assert Same(path, files, before);
      }
    }
  }

  lemma {:induction false} FilledWithStickers(dir: string, id: string, files: Files, sizes: seq<nat>, i: nat)
    requires i < |sizes|
    ensures var filled := Filled(dir, id, files, sizes);
            StickerPath(dir, id, i) in filled && filled[StickerPath(dir, id, i)] == Sticker(sizes[i])
  {
    var last := |sizes| - 1;
    if i < last {
      FilledWithStickers(dir, id, files, sizes[..last], i);
      if StickerPath(dir, id, i) == StickerPath(dir, id, last) {
        StickerPathInjective(dir, id, i, last);
      }
    }
  }

  function NewItems(dir: string, id: string, media: seq<Media>, itemIds: seq<string>): seq<Item>
    requires |itemIds| == |media|
  {
    if media == [] then [] else
      var last := |media| - 1;
      NewItems(dir, id, media[..last], itemIds[..last])
      + [Item(itemIds[last], StickerPath(dir, id, last), media[last].name + WEBP, "image/webp")]
  }

  function NewPack(dir: string, name: Text, media: seq<Media>, id: string, itemIds: seq<string>, now: string): Pack
    requires |itemIds| == |media|
  {
    Pack(id, name, now, FORMAT, NewItems(dir, id, media, itemIds))
  }

  /** ".webp" */
  const WEBP: Text := [46, 119, 101, 98, 112]

  /** One item for each medium, in order. */
  lemma {:induction false} NewItemsAre(dir: string, id: string, media: seq<Media>, itemIds: seq<string>)
    requires |itemIds| == |media|
    ensures var items := NewItems(dir, id, media, itemIds);
            && |items| == |media|
            && forall i :: 0 <= i < |media| ==>
                 items[i] == Item(itemIds[i], StickerPath(dir, id, i), media[i].name + WEBP, "image/webp")
  {
    if media != [] {
      NewItemsAre(dir, id, media[..|media| - 1], itemIds[..|media| - 1]);
    }
  }

  function Sizes(media: seq<Media>): seq<nat> {
    if media == [] then [] else Sizes(media[..|media| - 1]) + [media[|media| - 1].size]
  }

  lemma {:induction false} SizesLength(media: seq<Media>)
    ensures |Sizes(media)| == |media| && forall i :: 0 <= i < |media| ==> Sizes(media)[i] == media[i].size
  {
    if media != [] {
      SizesLength(media[..|media| - 1]);
    }
  }

  /** Once its stickers and manifest are on disk, a new pack is intact and agrees with its manifest. */
  lemma NewPackIsIntact(dir: string, p: Pack, media: seq<Media>, itemIds: seq<string>, files: Files)
    requires ValidId(p.id) && p.format == FORMAT && |itemIds| == |media|
    requires p.items == NewItems(dir, p.id, media, itemIds)
    ensures var after := WithManifest(dir, p, Filled(dir, p.id, files, Sizes(media)));
            |p.items| == |media| && Intact(dir, p, after) && Agrees(dir, p, after)
  {
    NewItemsAre(dir, p.id, media, itemIds);
    SizesLength(media);
    ManifestRoundTrip(dir, p);
    forall i | 0 <= i < |p.items|
      ensures var filled := Filled(dir, p.id, files, Sizes(media));
              p.items[i].uri in filled && filled[p.items[i].uri].Sticker? && p.items[i].uri != ManifestPath(dir, p.id)
    {
      ManifestIsNoSticker(dir, p.id, i);
      FilledWithStickers(dir, p.id, files, Sizes(media), i);
    }
  }

  /** Nothing is written outside the new directory, and nothing but the stickers and the manifest inside it. */
  lemma NewPackHoldsNothingElse(dir: string, p: Pack, media: seq<Media>, files: Files)
    ensures var after := WithManifest(dir, p, Filled(dir, p.id, files, Sizes(media)));
            && OnlyUnder(Root(dir, p.id), files, after)
            && after.Keys == files.Keys + PackPaths(dir, p.id, |media|)
  {
    var filled := Filled(dir, p.id, files, Sizes(media));
    SizesLength(media);
    FilledHolds(dir, p.id, files, Sizes(media));
    FilledOnlyUnder(dir, p.id, files, Sizes(media));
    ManifestOnlyUnder(dir, p, filled);
    forall path | !(Root(dir, p.id) <= path) ensures Same(path, files, WithManifest(dir, p, filled)) {
      assert Same(path, files, filled) && Same(path, filled, WithManifest(dir, p, filled));
    }
  }

  function Directory(root: string, files: Files): set<string> {
    set path | path in files && root <= path
  }

  function StickerPathsOf(dir: string, id: string, n: nat): set<string> {
    if n == 0 then {} else StickerPathsOf(dir, id, n - 1) + {StickerPath(dir, id, n - 1)}
  }

  lemma StickerPathInjective(dir: string, id: string, i: nat, j: nat)
    requires StickerPath(dir, id, i) == StickerPath(dir, id, j)
    ensures i == j
  {
    var n := |Root(dir, id)|;
    assert Filename(i) == StickerPath(dir, id, i)[n..];
    assert Filename(j) == StickerPath(dir, id, j)[n..];
    FilenameInjective(i, j);
  }

  lemma {:induction false} InStickerPaths(dir: string, id: string, n: nat, path: string)
    ensures path in StickerPathsOf(dir, id, n) <==> IsStickerPath(dir, id, n, path)
  {
    if n > 0 {
      InStickerPaths(dir, id, n - 1, path);
      assert IsStickerPath(dir, id, n, path) <==>
             IsStickerPath(dir, id, n - 1, path) || path == StickerPath(dir, id, n - 1);
    }
  }

  lemma {:induction false} StickerPathsCount(dir: string, id: string, n: nat)
    ensures |StickerPathsOf(dir, id, n)| == n
  {
    if n > 0 {
      StickerPathsCount(dir, id, n - 1);
      var last := StickerPath(dir, id, n - 1);
      InStickerPaths(dir, id, n - 1, last);
      if IsStickerPath(dir, id, n - 1, last) {
        var i: nat :| i < n - 1 && last == StickerPath(dir, id, i);
        StickerPathInjective(dir, id, i, n - 1);
      }
    }
  }

  lemma StickerPathsUnder(dir: string, id: string, n: nat)
    ensures forall path :: path in StickerPathsOf(dir, id, n) ==> Root(dir, id) <= path
    ensures ManifestPath(dir, id) !in StickerPathsOf(dir, id, n)
  {
    forall path | path in StickerPathsOf(dir, id, n) ensures Root(dir, id) <= path && path != ManifestPath(dir, id) {
      InStickerPaths(dir, id, n, path);
      var i: nat :| i < n && path == StickerPath(dir, id, i);
      ManifestIsNoSticker(dir, id, i);
    }
  }

  lemma PackPathsCount(dir: string, id: string, n: nat)
    ensures |PackPaths(dir, id, n)| == n + 1
    ensures forall path :: path in PackPaths(dir, id, n) ==> Root(dir, id) <= path
  {
    StickerPathsUnder(dir, id, n);
    StickerPathsCount(dir, id, n);
    assert Root(dir, id) <= ManifestPath(dir, id);
  }

  lemma DirectoryIs(root: string, before: set<string>, added: set<string>, after: Files)
    requires after.Keys == before + added
    requires forall path :: path in before ==> !(root <= path)
    requires forall path :: path in added ==> root <= path
    ensures Directory(root, after) == added
  {
  }

  /** The new directory holds exactly those files. */
  lemma NewPackFileCount(dir: string, p: Pack, n: nat, packs: seq<Pack>, before: Files, after: Files)
    requires Unused(dir, p.id, packs, before) && after.Keys == before.Keys + PackPaths(dir, p.id, n)
    ensures Directory(Root(dir, p.id), after) == PackPaths(dir, p.id, n)
    ensures |Directory(Root(dir, p.id), after)| == n + 1
  {
    PackPathsCount(dir, p.id, n);
    DirectoryIs(Root(dir, p.id), before.Keys, PackPaths(dir, p.id, n), after);
  }

  /** A new pack in front of the packs that the registry read gave, or of none. */
  lemma CreatingKeepsSound(dir: string, p: Pack, packs: seq<Pack>, others: seq<Pack>, before: Files, after: Files)
    requires Sound(dir, packs, before) && Unused(dir, p.id, packs, before) && (others == packs || others == [])
    requires OnlyUnder(Root(dir, p.id), before, after) && RightPart(dir, p, after)
    ensures Sound(dir, [p] + others, after)
    ensures Lost(dir, [p] + others, after) ==
            Lost(dir, others, before) + if Intact(dir, p, after) then {} else {p.id}
    ensures others == [] ==> Lost(dir, others, before) == {}
    ensures AllAgree(dir, packs, before) && Agrees(dir, p, after) ==> AllAgree(dir, [p] + others, after)
  {
    SoundElsewhere(dir, p.id, others, before, after);
    assert forall q :: q in [p] + others <==> q == p || q in others;
  }

  // ---------------------------------------------------------------- the fates of an operation's calls

  /** The calls for one medium; a copy that fails leaves nothing, or a file of some size. */
  datatype StickerFates = StickerFates(convert: Fate, info: Fate, copy: Fate, partial: Option<nat>, removeTemp: Fate)

  /** `spared` is what a deletion that did not take effect has left. */
  datatype CreateFates = CreateFates(
    makeRoot: Fate, stickers: seq<StickerFates>, manifest: Fate, read: Fate, register: Fate,
    removeRoot: Fate, spared: set<string>)

  datatype RenameFates = RenameFates(read: Fate, readManifest: Fate, writeManifest: Fate, register: Fate, restore: Fate)

  datatype DeleteFates = DeleteFates(read: Fate, register: Fate, removeRoot: Fate, spared: set<string>)

  predicate AcceptedMedium(file: Media) {
    "image/" <= file.mime && 100 <= file.size <= MAX_STICKER_SIZE
  }

  /** The medium is accepted, its calls work, and at worst its temporary file stays behind. */
  predicate StickerMade(file: Media, f: StickerFates) {
    AcceptedMedium(file) && f.convert == Works && f.info == Works && f.copy == Works && !Dies(f.removeTemp)
  }

  predicate MadeUpTo(media: seq<Media>, fs: seq<StickerFates>, n: nat)
    requires n <= |media| == |fs|
  {
    forall i :: 0 <= i < n ==> StickerMade(media[i], fs[i])
  }

  predicate AllMade(media: seq<Media>, fs: seq<StickerFates>)
    requires |fs| == |media|
  {
    MadeUpTo(media, fs, |media|)
  }

  predicate StickerSurvives(f: StickerFates) {
    !Dies(f.convert) && !Dies(f.info) && !Dies(f.copy) && !Dies(f.removeTemp)
  }

  predicate CreateSurvives(f: CreateFates) {
    && !Dies(f.makeRoot) && !Dies(f.manifest) && !Dies(f.read) && !Dies(f.register) && !Dies(f.removeRoot)
    && forall i :: 0 <= i < |f.stickers| ==> StickerSurvives(f.stickers[i])
  }

  /** No temporary file is left: the converter leaves none when it throws, and the deletion takes effect. */
  predicate TempCleared(f: StickerFates) {
    f.convert != ThrowsAfter && TookEffect(f.removeTemp)
  }

  predicate TempsCleared(fs: seq<StickerFates>) {
    forall i :: 0 <= i < |fs| ==> TempCleared(fs[i])
  }

  /** The creation gets as far as writing the registry. */
  predicate Registers(media: seq<Media>, f: CreateFates)
    requires |f.stickers| == |media|
  {
    AllMade(media, f.stickers) && f.manifest == Works && !Dies(f.read)
  }

  predicate ValidInput(name: Text, media: seq<Media>) {
    1 <= |Trim(name)| <= 80 && 1 <= |media| <= 120
  }

  predicate ReachesRegistry(name: Text, media: seq<Media>, f: CreateFates)
    requires |f.stickers| == |media|
  {
    ValidInput(name, media) && f.makeRoot == Works && Registers(media, f)
  }

  // ---------------------------------------------------------------- what a creation does

  function InnerEnds(file: Media, f: StickerFates): Outcome<()> {
    if f.info != Works then Ended(f.info, ())
    else if 100 <= file.size <= MAX_STICKER_SIZE then Ended(f.copy, ())
    else Threw
  }

  function Copied(to: string, size: nat, f: StickerFates, files: Files): Files {
    if f.copy == Works then files[to := Sticker(size)]
    else if f.partial.Some? then files[to := Sticker(f.partial.value)] else files
  }

  function InnerFiles(file: Media, to: string, f: StickerFates, files: Files): Files {
    if f.info == Works && 100 <= file.size <= MAX_STICKER_SIZE then Copied(to, file.size, f, files) else files
  }

  /** How the turn of the loop for one medium ends, and the files after it. */
  function OneEnds(file: Media, f: StickerFates): Outcome<()> {
    if !("image/" <= file.mime) then Threw
    else if f.convert != Works then Ended(f.convert, ())
    else if InnerEnds(file, f).Crashed? || Dies(f.removeTemp) then Crashed
    else InnerEnds(file, f)
  }

  function OneFiles(file: Media, to: string, f: StickerFates, files: Files): Files {
    if "image/" <= file.mime && f.convert == Works then InnerFiles(file, to, f, files) else files
  }

  /** The loop stops at the first medium that is not made. */
  function AllEnds(media: seq<Media>, fs: seq<StickerFates>): Outcome<()>
    requires |fs| == |media|
  {
    if media == [] then Done(()) else
      var last := |media| - 1;
      var before := AllEnds(media[..last], fs[..last]);
      if before.Done? then OneEnds(media[last], fs[last]) else before
  }

  function AllFiles(dir: string, id: string, media: seq<Media>, fs: seq<StickerFates>, files: Files): Files
    requires |fs| == |media|
  {
    if media == [] then files else
      var last := |media| - 1;
      var before := AllFiles(dir, id, media[..last], fs[..last], files);
      if AllEnds(media[..last], fs[..last]).Done?
      then OneFiles(media[last], StickerPath(dir, id, last), fs[last], before) else before
  }

  function RegisterEnds(f: CreateFates): Outcome<()> {
    if f.manifest != Works then Ended(f.manifest, ())
    else if Dies(f.read) then Crashed
    else Ended(f.register, ())
  }

  function BuildEnds(media: seq<Media>, f: CreateFates): Outcome<()>
    requires |f.stickers| == |media|
  {
    var all := AllEnds(media, f.stickers);
    if all.Done? then RegisterEnds(f) else all
  }

  function CreateEnds(name: Text, media: seq<Media>, f: CreateFates): Outcome<()>
    requires |f.stickers| == |media|
  {
    if !ValidInput(name, media) then Threw
    else if f.makeRoot != Works then Ended(f.makeRoot, ())
    else if BuildEnds(media, f).Threw? && Dies(f.removeRoot) then Crashed
    else BuildEnds(media, f)
  }

  function FilesBuilt(dir: string, p: Pack, media: seq<Media>, f: CreateFates, files: Files): Files
    requires |f.stickers| == |media|
  {
    var all := AllFiles(dir, p.id, media, f.stickers, files);
    if AllMade(media, f.stickers) && TookEffect(f.manifest) then WithManifest(dir, p, all) else all
  }

  /** The clean-up follows every exception inside the outer `try`. */
  function FilesAfterCreate(dir: string, p: Pack, name: Text, media: seq<Media>, f: CreateFates, files: Files): Files
    requires |f.stickers| == |media|
  {
    if !ValidInput(name, media) || f.makeRoot != Works then files
    else if BuildEnds(media, f).Threw?
    then Remaining(Root(dir, p.id), FilesBuilt(dir, p, media, f, files), f.removeRoot, f.spared)
    else FilesBuilt(dir, p, media, f, files)
  }

  predicate RegistersPack(name: Text, media: seq<Media>, f: CreateFates)
    requires |f.stickers| == |media|
  {
    ReachesRegistry(name, media, f) && TookEffect(f.register)
  }

  function RegistryAfterCreate(p: Pack, name: Text, media: seq<Media>, f: CreateFates, s: Stored): Stored
    requires |f.stickers| == |media|
  {
    if RegistersPack(name, media, f) then Packs([p] + ReadBy(f.read, s)) else s
  }

  /** The clean-up after an exception leaves every file of the new pack. */
  predicate CleanUpSparesPack(dir: string, id: string, n: nat, f: CreateFates) {
    !TookEffect(f.removeRoot) && PackPaths(dir, id, n) <= f.spared
  }

  /**
   A registry write that took effect and yet throws makes the clean-up delete the files of a registered
   pack, unless it spares them all.
   */
  predicate BreaksNewPack(dir: string, name: Text, media: seq<Media>, id: string, f: CreateFates)
    requires |f.stickers| == |media|
  {
    ReachesRegistry(name, media, f) && f.register == ThrowsAfter && !CleanUpSparesPack(dir, id, |media|, f)
  }

  // ---------------------------------------------------------------- what a rename does

  predicate RenameSurvives(f: RenameFates) {
    !Dies(f.read) && !Dies(f.readManifest) && !Dies(f.writeManifest) && !Dies(f.register) && !Dies(f.restore)
  }

  predicate RenameCompletes(f: RenameFates) {
    f.readManifest == Works && f.writeManifest == Works && f.register == Works
  }

  predicate RenameThrows(f: RenameFates) {
    || Fails(f.readManifest)
    || (f.readManifest == Works && Fails(f.writeManifest))
    || (f.readManifest == Works && f.writeManifest == Works && Fails(f.register) && !Dies(f.restore))
  }

  predicate RegistryChanges(f: RenameFates) {
    f.readManifest == Works && f.writeManifest == Works && TookEffect(f.register)
  }

  /** The new manifest is written, and not replaced by the old one after an exception of the registry. */
  predicate ManifestChanges(f: RenameFates) {
    && f.readManifest == Works && TookEffect(f.writeManifest)
    && !(f.writeManifest == Works && Fails(f.register) && TookEffect(f.restore))
  }

  /** An exception is no more than that, and the old manifest can be put back. */
  predicate RollsBack(f: RenameFates) {
    f.writeManifest != ThrowsAfter && f.register != ThrowsAfter && TookEffect(f.restore)
  }

  lemma RollbackChangesNothing(f: RenameFates)
    ensures RenameThrows(f) && RollsBack(f) ==> !RegistryChanges(f) && !ManifestChanges(f)
  {
  }

  /** What the renamed pack becomes, if anything has to be written. */
  function PackAfterRename(s: Stored, read: Fate, id: string, newName: Option<Text>): Option<Pack> {
    match Find(ReadBy(read, s), id)
    case None => None
    case Some(p) => if newName.None? || p.name == newName.value then None else Some(p.(name := newName.value))
  }

  function ItemToRename(s: Stored, read: Fate, packId: string, itemId: string): Option<Item> {
    match Find(ReadBy(read, s), packId)
    case None => None
    case Some(p) => FindItem(p.items, itemId)
  }

  function PackAfterItemRename(s: Stored, read: Fate, packId: string, itemId: string, newName: Option<Text>): Option<Pack> {
    match Find(ReadBy(read, s), packId)
    case None => None
    case Some(p) =>
      var item := FindItem(p.items, itemId);
      if newName.None? || item.None? || item.value.name == newName.value then None
      else Some(p.(items := RenamedItems(p.items, itemId, newName.value)))
  }

  /** Nothing is written for a pack whose manifest is not there to be read. */
  function RegistryAfterRename(dir: string, s: Stored, files: Files, q: Option<Pack>, f: RenameFates): Stored {
    if q.Some? && HasManifest(dir, q.value.id, files) && RegistryChanges(f)
    then Packs(Replaced(Registered(s), q.value)) else s
  }

  function FilesAfterRename(dir: string, files: Files, q: Option<Pack>, f: RenameFates): Files {
    if q.Some? && HasManifest(dir, q.value.id, files) && ManifestChanges(f) then WithManifest(dir, q.value, files) else files
  }

  // ---------------------------------------------------------------- what a deletion does

  predicate DeleteSurvives(f: DeleteFates) {
    !Dies(f.read) && !Dies(f.register) && !Dies(f.removeRoot)
  }

  predicate FoundToDelete(s: Stored, id: string, f: DeleteFates) {
    Find(ReadBy(f.read, s), id).Some?
  }

  predicate DeleteCompletes(s: Stored, id: string, f: DeleteFates) {
    !Dies(f.read) && (FoundToDelete(s, id, f) ==> f.register == Works && !Dies(f.removeRoot))
  }

  function RegistryAfterDelete(s: Stored, id: string, f: DeleteFates): Stored {
    if FoundToDelete(s, id, f) && TookEffect(f.register) then Packs(WithoutPack(Registered(s), id)) else s
  }

  function FilesAfterDelete(dir: string, s: Stored, files: Files, id: string, f: DeleteFates): Files {
    if FoundToDelete(s, id, f) && f.register == Works
    then Remaining(Root(dir, id), files, f.removeRoot, f.spared) else files
  }

  /** The files after the deletion of a directory, which may stop half way. */
  function Remaining(root: string, files: Files, f: Fate, spared: set<string>): Files {
    map path | path in files && (!(root <= path) || (!TookEffect(f) && path in spared)) :: files[path]
  }

  /** A failed or interrupted deletion may have removed part of the directory. */
  ghost predicate PartOf(root: string, before: Files, after: Files) {
    OnlyUnder(root, before, after) && forall path :: path in after ==> path in before && after[path] == before[path]
  }

  ghost predicate EmptyUnder(root: string, files: Files) {
    forall path :: path in files ==> !(root <= path)
  }

  lemma RemainingIsPart(root: string, files: Files, f: Fate, spared: set<string>)
    ensures PartOf(root, files, Remaining(root, files, f, spared))
    ensures TookEffect(f) ==> EmptyUnder(root, Remaining(root, files, f, spared))
  {
  }

  // ---------------------------------------------------------------- the outcome of a creation

  lemma OneDoneIff(file: Media, f: StickerFates)
    ensures OneEnds(file, f).Done? <==> StickerMade(file, f)
    ensures StickerSurvives(f) ==> !OneEnds(file, f).Crashed?
  {
  }

  lemma {:induction false} AllDoneIff(media: seq<Media>, fs: seq<StickerFates>)
    requires |fs| == |media|
    ensures AllEnds(media, fs).Done? <==> AllMade(media, fs)
    ensures (forall i :: 0 <= i < |fs| ==> StickerSurvives(fs[i])) ==> !AllEnds(media, fs).Crashed?
  {
    if media != [] {
      var last := |media| - 1;
      AllDoneIff(media[..last], fs[..last]);
      OneDoneIff(media[last], fs[last]);
      assert AllMade(media, fs) <==> AllMade(media[..last], fs[..last]) && StickerMade(media[last], fs[last]);
    }
  }

  lemma {:induction false} AllMadeIsFilled(dir: string, id: string, media: seq<Media>, fs: seq<StickerFates>, files: Files)
    requires |fs| == |media| && AllMade(media, fs)
    ensures AllFiles(dir, id, media, fs, files) == Filled(dir, id, files, Sizes(media))
  {
    if media != [] {
      var last := |media| - 1;
      AllMadeIsFilled(dir, id, media[..last], fs[..last], files);
      AllDoneIff(media[..last], fs[..last]);
      SizesLength(media[..last]);
      assert Sizes(media) == Sizes(media[..last]) + [media[last].size];
      assert Sizes(media)[..last] == Sizes(media[..last]);
      assert StickerMade(media[last], fs[last]);
    }
  }

  lemma {:induction false} AllFilesOnlyUnder(dir: string, id: string, media: seq<Media>, fs: seq<StickerFates>, files: Files)
    requires |fs| == |media|
    ensures OnlyUnder(Root(dir, id), files, AllFiles(dir, id, media, fs, files))
  {
    if media != [] {
      var last := |media| - 1;
      var before, to := AllFiles(dir, id, media[..last], fs[..last], files), StickerPath(dir, id, last);
      AllFilesOnlyUnder(dir, id, media[..last], fs[..last], files);
      var after := OneFiles(media[last], to, fs[last], before);
      assert Root(dir, id) <= to && OnlyAt(to, before, after);
      OnlyAtIsOnlyUnder(Root(dir, id), to, files, before, after);
    }
  }

  lemma OnlyAtIsOnlyUnder(root: string, at: string, first: Files, before: Files, after: Files)
    requires root <= at && OnlyUnder(root, first, before) && OnlyAt(at, before, after)
    ensures OnlyUnder(root, first, after)
  {
    forall path | !(root <= path) ensures Same(path, first, after) {
      assert Same(path, first, before) && Same(path, before, after);
    }
  }

  lemma OnlyUnderTransitive(root: string, a: Files, b: Files, c: Files)
    requires OnlyUnder(root, a, b) && OnlyUnder(root, b, c)
    ensures OnlyUnder(root, a, c)
  {
    forall path | !(root <= path) ensures Same(path, a, c) {
      assert Same(path, a, b) && Same(path, b, c);
    }
  }

  /** Deleting a directory that was empty before brings the files of before back. */
  lemma NothingLeft(root: string, before: Files, after: Files)
    requires OnlyUnder(root, before, after) && EmptyUnder(root, before) && EmptyUnder(root, after)
    ensures before == after
  {
    forall path | path in before ensures path in after && after[path] == before[path] {
      assert Same(path, before, after);
    }
    forall path | path in after ensures path in before {
      assert Same(path, before, after);
    }
  }

  lemma BuiltOnlyUnder(dir: string, p: Pack, media: seq<Media>, f: CreateFates, files: Files)
    requires |f.stickers| == |media|
    ensures OnlyUnder(Root(dir, p.id), files, FilesBuilt(dir, p, media, f, files))
  {
    var all := AllFiles(dir, p.id, media, f.stickers, files);
    AllFilesOnlyUnder(dir, p.id, media, f.stickers, files);
    ManifestOnlyUnder(dir, p, all);
    if AllMade(media, f.stickers) && TookEffect(f.manifest) {
      OnlyUnderTransitive(Root(dir, p.id), files, all, WithManifest(dir, p, all));
    }
  }

  /** Only the new directory changes, and a clean-up that takes effect leaves it as empty as it was. */
  lemma CreatedFiles(dir: string, p: Pack, name: Text, media: seq<Media>, f: CreateFates, files: Files)
    requires |f.stickers| == |media| && EmptyUnder(Root(dir, p.id), files)
    ensures var now := FilesAfterCreate(dir, p, name, media, f, files);
            && OnlyUnder(Root(dir, p.id), files, now)
            && (CreateEnds(name, media, f).Threw? && TookEffect(f.removeRoot) ==> now == files)
  {
    var root, built := Root(dir, p.id), FilesBuilt(dir, p, media, f, files);
    var left := Remaining(root, built, f.removeRoot, f.spared);
    BuiltOnlyUnder(dir, p, media, f, files);
    RemainingIsPart(root, built, f.removeRoot, f.spared);
    OnlyUnderTransitive(root, files, built, left);
    if TookEffect(f.removeRoot) {
      NothingLeft(root, files, left);
    }
  }

  /** How a creation ends, in the terms of a caller. */
  lemma CreateEndsIff(name: Text, media: seq<Media>, f: CreateFates)
    requires |f.stickers| == |media|
    ensures CreateEnds(name, media, f).Done? <==> ReachesRegistry(name, media, f) && f.register == Works
    ensures CreateSurvives(f) ==> !CreateEnds(name, media, f).Crashed?
    ensures Registers(media, f) ==> BuildEnds(media, f) == Ended(f.register, ())
  {
    AllDoneIff(media, f.stickers);
  }

  /** Part of an intact pack is right, and is all of it if and only if no file is missing. */
  lemma PartOfIntact(dir: string, p: Pack, built: Files, left: Files)
    requires Intact(dir, p, built) && PartOf(Root(dir, p.id), built, left)
    ensures RightPart(dir, p, left)
    ensures Intact(dir, p, left) <==> PackPaths(dir, p.id, |p.items|) <= left.Keys
  {
    assert ManifestPath(dir, p.id) in left ==> left[ManifestPath(dir, p.id)] == built[ManifestPath(dir, p.id)];
    IntactIff(dir, p, left);
  }

  /** The new pack once it is registered, whether or not the clean-up follows. */
  lemma RegisteredPack(
      dir: string, p: Pack, name: Text, media: seq<Media>, itemIds: seq<string>, f: CreateFates, files: Files)
    requires |itemIds| == |media| == |f.stickers| && p.items == NewItems(dir, p.id, media, itemIds)
    requires p.format == FORMAT && ValidId(p.id) && RegistersPack(name, media, f)
    ensures var now := FilesAfterCreate(dir, p, name, media, f, files);
            && RightPart(dir, p, now)
            && (Intact(dir, p, now) <==> !BreaksNewPack(dir, name, media, p.id, f))
            && (f.register != ThrowsAfter ==>
                  now == WithManifest(dir, p, Filled(dir, p.id, files, Sizes(media))) && Agrees(dir, p, now))
  {
    var built := WithManifest(dir, p, Filled(dir, p.id, files, Sizes(media)));
    RegisteredFiles(dir, p, name, media, f, files);
    NewPackIsIntact(dir, p, media, itemIds, files);
    CleanUpLeaves(dir, p, built, f);
  }

  lemma RegisteredFiles(dir: string, p: Pack, name: Text, media: seq<Media>, f: CreateFates, files: Files)
    requires |media| == |f.stickers| && RegistersPack(name, media, f)
    ensures var built := WithManifest(dir, p, Filled(dir, p.id, files, Sizes(media)));
            FilesAfterCreate(dir, p, name, media, f, files) ==
            if f.register == ThrowsAfter then Remaining(Root(dir, p.id), built, f.removeRoot, f.spared) else built
  {
    AllMadeIsFilled(dir, p.id, media, f.stickers, files);
    CreateEndsIff(name, media, f);
  }

  /** The clean-up under an intact pack leaves it intact if and only if it spares all its files. */
  lemma CleanUpLeaves(dir: string, p: Pack, built: Files, f: CreateFates)
    requires Intact(dir, p, built)
    ensures var left := Remaining(Root(dir, p.id), built, f.removeRoot, f.spared);
            RightPart(dir, p, left) && (Intact(dir, p, left) <==> CleanUpSparesPack(dir, p.id, |p.items|, f))
  {
    var left := Remaining(Root(dir, p.id), built, f.removeRoot, f.spared);
    RemainingIsPart(Root(dir, p.id), built, f.removeRoot, f.spared);
    PartOfIntact(dir, p, built, left);
    PackPathsCount(dir, p.id, |p.items|);
    IntactIff(dir, p, built);
    assert ManifestPath(dir, p.id) in PackPaths(dir, p.id, |p.items|);
  }

  /** The stickers of a pack created with success, file by file. */
  lemma CreatedStickers(dir: string, p: Pack, media: seq<Media>, files: Files)
    ensures var now := WithManifest(dir, p, Filled(dir, p.id, files, Sizes(media)));
            HasStickers(dir, p.id, media, now)
  {
    SizesLength(media);
    forall i | 0 <= i < |media|
      ensures var now := WithManifest(dir, p, Filled(dir, p.id, files, Sizes(media)));
              StickerPath(dir, p.id, i) in now && now[StickerPath(dir, p.id, i)] == Sticker(media[i].size)
    {
      FilledWithStickers(dir, p.id, files, Sizes(media), i);
      ManifestIsNoSticker(dir, p.id, i);
    }
  }

  /** The pack asked for: the whole title, and one item for each medium with its own name and path. */
  ghost predicate IsPackOf(
      p: Pack, dir: string, title: Text, media: seq<Media>, id: string, itemIds: seq<string>, now: string)
    requires |itemIds| == |media|
  {
    && p.id == id && p.name == title && p.createdAt == now && p.format == "KNOWSTICKER_V1" && |p.items| == |media|
    && forall i :: 0 <= i < |media| ==>
         p.items[i] == Item(itemIds[i], StickerPath(dir, id, i), media[i].name + WEBP, "image/webp")
  }

  ghost predicate HasStickers(dir: string, id: string, media: seq<Media>, files: Files) {
    forall i :: 0 <= i < |media| ==>
      StickerPath(dir, id, i) in files && files[StickerPath(dir, id, i)] == Sticker(media[i].size)
  }

  /** Whenever a creation has registered a pack, however it ended, the pack in front is the one asked for. */
  lemma RegisteredPackIs(
      dir: string, name: Text, media: seq<Media>, id: string, itemIds: seq<string>, now: string, f: CreateFates, s: Stored)
    requires |itemIds| == |media| == |f.stickers| && RegistersPack(name, media, f)
    ensures var p := NewPack(dir, Trim(name), media, id, itemIds, now);
            var after := Registered(RegistryAfterCreate(p, name, media, f, s));
            && after != [] && IsPackOf(after[0], dir, Trim(name), media, id, itemIds, now)
            && after[1..] == if f.read == Works then Registered(s) else []
  {
    var p := NewPack(dir, Trim(name), media, id, itemIds, now);
    NewItemsAre(dir, id, media, itemIds);
    NewRegistryRead(p, s, ReadBy(f.read, s));
  }

  /** A pack created with success has its own directory to itself. */
  lemma CreatedDirectory(dir: string, p: Pack, media: seq<Media>, packs: seq<Pack>, files: Files)
    requires Unused(dir, p.id, packs, files)
    ensures var now := WithManifest(dir, p, Filled(dir, p.id, files, Sizes(media)));
            && Directory(Root(dir, p.id), now) == PackPaths(dir, p.id, |media|)
            && |Directory(Root(dir, p.id), now)| == |media| + 1
  {
    NewPackHoldsNothingElse(dir, p, media, files);
    NewPackFileCount(dir, p, |media|, packs, files, WithManifest(dir, p, Filled(dir, p.id, files, Sizes(media))));
  }

  /** The packs lost by a creation: its own, in the one case, and none of the others that stay registered. */
  function LostByCreate(dir: string, name: Text, media: seq<Media>, id: string, f: CreateFates, lost: set<string>): set<string>
    requires |f.stickers| == |media|
  {
    (if RegistersPack(name, media, f) && f.read != Works then {} else lost)
    + if BreaksNewPack(dir, name, media, id, f) then {id} else {}
  }

  /**
   A creation stopped anywhere keeps the store sound. It costs a file of a registered pack only if the registry
   write took effect and threw, and the clean-up then deleted files of the new pack.
   */
  lemma CreateOutcome(
      dir: string, p: Pack, name: Text, media: seq<Media>, itemIds: seq<string>, f: CreateFates, s: Stored, files: Files)
    requires |itemIds| == |media| == |f.stickers| && p.items == NewItems(dir, p.id, media, itemIds) && p.format == FORMAT
    requires Sound(dir, Registered(s), files) && Unused(dir, p.id, Registered(s), files)
    ensures var after, now := Registered(RegistryAfterCreate(p, name, media, f, s)), FilesAfterCreate(dir, p, name, media, f, files);
            && Sound(dir, after, now)
            && Lost(dir, after, now) == LostByCreate(dir, name, media, p.id, f, Lost(dir, Registered(s), files))
  {
    var now := FilesAfterCreate(dir, p, name, media, f, files);
    CreatedFiles(dir, p, name, media, f, files);
    if RegistersPack(name, media, f) {
      RegisteredPack(dir, p, name, media, itemIds, f, files);
    }
    CreatedSound(dir, p, s, files, now, f.read, RegistersPack(name, media, f), BreaksNewPack(dir, name, media, p.id, f));
  }

  lemma CreatedSound(
      dir: string, p: Pack, s: Stored, files: Files, now: Files, read: Fate, registered: bool, broken: bool)
    requires Sound(dir, Registered(s), files) && Unused(dir, p.id, Registered(s), files)
    requires p.format == FORMAT && OnlyUnder(Root(dir, p.id), files, now)
    requires registered ==> RightPart(dir, p, now) && (Intact(dir, p, now) <==> !broken)
    requires broken ==> registered
    ensures var after := Registered(if registered then Packs([p] + ReadBy(read, s)) else s);
            && Sound(dir, after, now)
            && Lost(dir, after, now) ==
               (if registered && read != Works then {} else Lost(dir, Registered(s), files)) + (if broken then {p.id} else {})
  {
    if registered {
      NewRegistryRead(p, s, ReadBy(read, s));
      CreatingKeepsSound(dir, p, Registered(s), ReadBy(read, s), files, now);
    } else {
      SoundElsewhere(dir, p.id, Registered(s), files, now);
    }
  }

  lemma CreateKeepsAgreement(
      dir: string, p: Pack, name: Text, media: seq<Media>, itemIds: seq<string>, f: CreateFates, s: Stored, files: Files)
    requires |itemIds| == |media| == |f.stickers| && p.items == NewItems(dir, p.id, media, itemIds) && p.format == FORMAT
    requires Sound(dir, Registered(s), files) && Unused(dir, p.id, Registered(s), files)
    requires AllAgree(dir, Registered(s), files) && f.register != ThrowsAfter
    ensures AllAgree(dir, Registered(RegistryAfterCreate(p, name, media, f, s)), FilesAfterCreate(dir, p, name, media, f, files))
  {
    var now := FilesAfterCreate(dir, p, name, media, f, files);
    CreatedFiles(dir, p, name, media, f, files);
    if RegistersPack(name, media, f) {
      RegisteredPack(dir, p, name, media, itemIds, f, files);
      NewRegistryRead(p, s, ReadBy(f.read, s));
      CreatingKeepsSound(dir, p, Registered(s), ReadBy(f.read, s), files, now);
    } else {
      SoundElsewhere(dir, p.id, Registered(s), files, now);
    }
  }

  // ---------------------------------------------------------------- the outcome of a rename

  /** With only one of manifest and registry written, the renamed pack and its manifest disagree. */
  lemma HalfRenamedDisagrees(dir: string, packs: seq<Pack>, files: Files, p: Pack, q: Pack)
    requires p in packs && OnlyNamesDiffer(p, q)
    requires ManifestOf(dir, p) != ManifestOf(dir, q) && AllAgree(dir, packs, files)
    ensures !AllAgree(dir, packs, WithManifest(dir, q, files)) && !AllAgree(dir, Replaced(packs, q), files)
  {
    assert Agrees(dir, p, files);
    assert !Agrees(dir, p, WithManifest(dir, q, files));
    ReplacedKeeps(packs, q);
    var i :| 0 <= i < |packs| && packs[i] == p;
    assert Replaced(packs, q)[i] == q && q in Replaced(packs, q);
    assert !Agrees(dir, q, files);
  }

  /**
   A rename stopped anywhere keeps the store sound and the same packs intact, and keeps manifests in agreement
   exactly when it has changed both manifest and registry, or neither.
   */
  lemma RenameOutcome(dir: string, s: Stored, files: Files, p: Pack, q: Pack, f: RenameFates)
    requires p in Registered(s) && OnlyNamesDiffer(p, q) && ManifestOf(dir, p) != ManifestOf(dir, q)
    requires Sound(dir, Registered(s), files)
    ensures var after := Registered(RegistryAfterRename(dir, s, files, Some(q), f));
            var now := FilesAfterRename(dir, files, Some(q), f);
            && Sound(dir, after, now)
            && Lost(dir, after, now) == Lost(dir, Registered(s), files)
            && (HasManifest(dir, p.id, files) && RegistryChanges(f) ==> after == Replaced(Registered(s), q))
            && (HasManifest(dir, p.id, files) && ManifestChanges(f) ==> Agrees(dir, q, now))
            && (AllAgree(dir, Registered(s), files)
                ==> (AllAgree(dir, after, now) <==> (ManifestChanges(f) <==> RegistryChanges(f))))
  {
    RenamedRegistry(dir, s, files, p, q, f);
    if HasManifest(dir, p.id, files) {
      RenamingKeepsSound(dir, Registered(s), files, p, q, RegistryChanges(f), ManifestChanges(f));
      assert WithManifest(dir, q, files)[ManifestPath(dir, q.id)] == ManifestFile(ManifestOf(dir, q));
    }
    if AllAgree(dir, Registered(s), files) {
      RenamedAgreesIff(dir, Registered(s), files, p, q);
    }
  }

  lemma RenamedRegistry(dir: string, s: Stored, files: Files, p: Pack, q: Pack, f: RenameFates)
    requires p in Registered(s) && OnlyNamesDiffer(p, q)
    ensures Registered(RegistryAfterRename(dir, s, files, Some(q), f)) ==
            if HasManifest(dir, p.id, files) && RegistryChanges(f) then Replaced(Registered(s), q) else Registered(s)
  {
    RegistryOfReplaced(s, p, q);
  }

  /** All agree with manifest and registry both new or both old, and do not with only one of them new. */
  lemma RenamedAgreesIff(dir: string, packs: seq<Pack>, files: Files, p: Pack, q: Pack)
    requires Sound(dir, packs, files) && p in packs && OnlyNamesDiffer(p, q)
    requires ManifestOf(dir, p) != ManifestOf(dir, q) && AllAgree(dir, packs, files)
    ensures HasManifest(dir, p.id, files)
    ensures AllAgree(dir, Replaced(packs, q), WithManifest(dir, q, files))
    ensures !AllAgree(dir, packs, WithManifest(dir, q, files)) && !AllAgree(dir, Replaced(packs, q), files)
  {
    assert Agrees(dir, p, files) && RightPart(dir, p, files);
    HalfRenamedDisagrees(dir, packs, files, p, q);
    RenamingKeepsAgreement(dir, packs, files, p, q);
  }

  lemma PackRenameOutcome(dir: string, s: Stored, files: Files, id: string, newName: Text, f: RenameFates)
    requires Sound(dir, Registered(s), files)
    ensures var q := PackAfterRename(s, f.read, id, Some(newName));
            var after := Registered(RegistryAfterRename(dir, s, files, q, f));
            var now := FilesAfterRename(dir, files, q, f);
            && Sound(dir, after, now)
            && Lost(dir, after, now) == Lost(dir, Registered(s), files)
            && (AllAgree(dir, Registered(s), files)
                ==> (AllAgree(dir, after, now) <==> q.None? || (ManifestChanges(f) <==> RegistryChanges(f))))
            && (q.Some? ==> q.value.id == id)
  {
    FindIsThere(ReadBy(f.read, s), id);
    var q := PackAfterRename(s, f.read, id, Some(newName));
    if q.Some? {
      RenameOutcome(dir, s, files, Find(ReadBy(f.read, s), id).value, q.value, f);
    }
  }

  lemma PackRenameShows(dir: string, s: Stored, files: Files, id: string, newName: Text, f: RenameFates)
    requires Sound(dir, Registered(s), files) && Find(ReadBy(f.read, s), id).Some?
    requires PackAfterRename(s, f.read, id, Some(newName)).Some? ==> HasManifest(dir, id, files) && RenameCompletes(f)
    ensures var q := PackAfterRename(s, f.read, id, Some(newName));
            var renamed := if q.Some? then q.value else Find(ReadBy(f.read, s), id).value;
            PackRenamed(dir, Registered(s), Registered(RegistryAfterRename(dir, s, files, q, f)),
                        FilesAfterRename(dir, files, q, f), newName, renamed)
  {
    FindIsThere(ReadBy(f.read, s), id);
    var found, q := Find(ReadBy(f.read, s), id).value, PackAfterRename(s, f.read, id, Some(newName));
    if q.Some? {
      RenameOutcome(dir, s, files, found, q.value, f);
    } else {
      ReplacedBySelf(Registered(s), found);
    }
  }

  lemma ItemRenameOutcome(
      dir: string, s: Stored, files: Files, packId: string, itemId: string, newName: Text, f: RenameFates)
    requires Sound(dir, Registered(s), files)
    ensures var q := PackAfterItemRename(s, f.read, packId, itemId, Some(newName));
            var after := Registered(RegistryAfterRename(dir, s, files, q, f));
            var now := FilesAfterRename(dir, files, q, f);
            && Sound(dir, after, now)
            && Lost(dir, after, now) == Lost(dir, Registered(s), files)
            && (AllAgree(dir, Registered(s), files)
                ==> (AllAgree(dir, after, now) <==> q.None? || (ManifestChanges(f) <==> RegistryChanges(f))))
            && (q.Some? ==> q.value.id == packId)
  {
    FindIsThere(ReadBy(f.read, s), packId);
    var q := PackAfterItemRename(s, f.read, packId, itemId, Some(newName));
    if q.Some? {
      var found := Find(ReadBy(f.read, s), packId).value;
      RenamedItemsKeep(found.items, itemId, newName);
      ItemRenameChangesManifest(dir, found, itemId, newName);
      RenameOutcome(dir, s, files, found, q.value, f);
    }
  }

  lemma ItemRenameShows(
      dir: string, s: Stored, files: Files, packId: string, itemId: string, newName: Text, f: RenameFates)
    requires Sound(dir, Registered(s), files) && ItemToRename(s, f.read, packId, itemId).Some?
    requires PackAfterItemRename(s, f.read, packId, itemId, Some(newName)).Some?
             ==> HasManifest(dir, packId, files) && RenameCompletes(f)
    ensures var q := PackAfterItemRename(s, f.read, packId, itemId, Some(newName));
            var renamed := if q.Some? then q.value else Find(ReadBy(f.read, s), packId).value;
            ItemRenamed(dir, Registered(s), Registered(RegistryAfterRename(dir, s, files, q, f)),
                        FilesAfterRename(dir, files, q, f), itemId, newName, renamed)
  {
    FindIsThere(ReadBy(f.read, s), packId);
    var found, q := Find(ReadBy(f.read, s), packId).value, PackAfterItemRename(s, f.read, packId, itemId, Some(newName));
    if q.Some? {
      RenamedItemsKeep(found.items, itemId, newName);
      ItemRenameChangesManifest(dir, found, itemId, newName);
      RenameOutcome(dir, s, files, found, q.value, f);
    }
  }

  /** A new item name changes the manifest. */
  lemma ItemRenameChangesManifest(dir: string, p: Pack, itemId: string, name: Text)
    requires FindItem(p.items, itemId).Some? && FindItem(p.items, itemId).value.name != name
    ensures ManifestOf(dir, p) != ManifestOf(dir, p.(items := RenamedItems(p.items, itemId, name)))
  {
    var renamed := RenamedItems(p.items, itemId, name);
    RenamedItemsKeep(p.items, itemId, name);
    var i := FoundItemAt(p.items, itemId);
    EntriesMatch(Root(dir, p.id), p.items);
    EntriesMatch(Root(dir, p.id), renamed);
    assert EntriesOf(Root(dir, p.id), p.items)[i].name != EntriesOf(Root(dir, p.id), renamed)[i].name;
  }

  lemma {:induction false} FoundItemAt(items: seq<Item>, itemId: string) returns (i: nat)
    requires FindItem(items, itemId).Some?
    ensures i < |items| && items[i] == FindItem(items, itemId).value && items[i].id == itemId
    ensures forall j :: 0 <= j < i ==> items[j].id != itemId
  {
    if items[0].id == itemId {
      i := 0;
    } else {
      var j := FoundItemAt(items[1..], itemId);
      i := j + 1;
    }
  }

  // ---------------------------------------------------------------- the outcome of a deletion

  function LostByDelete(s: Stored, id: string, f: DeleteFates, lost: set<string>): set<string> {
    if FoundToDelete(s, id, f) && TookEffect(f.register) then lost - {id} else lost
  }

  lemma DeleteOutcome(dir: string, s: Stored, files: Files, id: string, f: DeleteFates)
    requires Sound(dir, Registered(s), files)
    ensures var after, now := Registered(RegistryAfterDelete(s, id, f)), FilesAfterDelete(dir, s, files, id, f);
            && Sound(dir, after, now)
            && Lost(dir, after, now) == LostByDelete(s, id, f, Lost(dir, Registered(s), files))
            && (AllAgree(dir, Registered(s), files) ==> AllAgree(dir, after, now))
  {
    FindIsThere(Registered(s), id);
    var found := FoundToDelete(s, id, f);
    if found && TookEffect(f.register) {
      assert RightPart(dir, Find(Registered(s), id).value, files);
      RegistryWithout(s, id);
      RemainingIsPart(Root(dir, id), files, f.removeRoot, f.spared);
      DeletingKeepsSound(dir, Registered(s), files, FilesAfterDelete(dir, s, files, id, f), id);
    }
  }

  /** The packs that a deletion leaves registered, in order. */
  lemma DeletedInPlace(dir: string, s: Stored, files: Files, id: string, f: DeleteFates)
    requires Sound(dir, Registered(s), files)
    ensures var before, after := Registered(s), Registered(RegistryAfterDelete(s, id, f));
            && (f.read == Works && TookEffect(f.register) ==> TakenOut(before, id, after))
            && (f.read != Works || !TookEffect(f.register) || IsUnregistered(id, s) ==> after == before)
  {
    var before := Registered(s);
    FindIsThere(before, id);
    RegistryWithout(s, id);
    forall i | 0 <= i < |before| && before[i].id == id ensures WithoutPack(before, id) == before[..i] + before[i + 1..] {
      WithoutPackCuts(before, id, i);
    }
  }

  /** What a caller may conclude from a deletion that returns. */
  lemma DeleteShows(dir: string, s: Stored, files: Files, id: string, f: DeleteFates)
    requires Sound(dir, Registered(s), files)
    ensures FoundToDelete(s, id, f) ==> ValidId(id)
    ensures PartOf(Root(dir, id), files, FilesAfterDelete(dir, s, files, id, f))
    ensures DeleteCompletes(s, id, f) ==>
              && (IsUnregistered(id, RegistryAfterDelete(s, id, f)) <==> f.read == Works || IsUnregistered(id, s))
              && (f.read == Works && TookEffect(f.removeRoot) && !IsUnregistered(id, s)
                  ==> EmptyUnder(Root(dir, id), FilesAfterDelete(dir, s, files, id, f)))
  {
    FindIsThere(Registered(s), id);
    if FoundToDelete(s, id, f) {
      assert RightPart(dir, Find(Registered(s), id).value, files);
      RegistryWithout(s, id);
      WithoutPackKeeps(Registered(s), id);
      RemainingIsPart(Root(dir, id), files, f.removeRoot, f.spared);
    }
  }

  // ---------------------------------------------------------------- the registry read back

  lemma NewRegistryRead(pack: Pack, before: Stored, existing: seq<Pack>)
    requires pack.format == FORMAT && (existing == [] || existing == Registered(before))
    ensures Registered(Packs([pack] + existing)) == [pack] + existing
  {
    if before.Packs? {
      OfFormatKeeps(before.packs);
    }
    OfFormatKeeps([pack] + existing);
  }

  lemma {:induction false} ReplacedFormat(packs: seq<Pack>, q: Pack)
    requires q.format == FORMAT && forall p :: p in packs ==> p.format == FORMAT
    ensures OfFormat(Replaced(packs, q)) == Replaced(packs, q)
  {
    if packs != [] {
      ReplacedFormat(packs[1..], q);
      assert packs[0] in packs;
    }
  }

  lemma RegistryOfReplaced(s: Stored, p: Pack, q: Pack)
    requires p in Registered(s) && q.format == p.format
    ensures Registered(Packs(Replaced(Registered(s), q))) == Replaced(Registered(s), q)
  {
    OfFormatKeeps(s.packs);
    ReplacedFormat(Registered(s), q);
  }

  lemma RegistryWithout(s: Stored, id: string)
    ensures Registered(Packs(WithoutPack(Registered(s), id))) == WithoutPack(Registered(s), id)
  {
    if s.Packs? {
      OfFormatKeeps(s.packs);
    }
    WithoutPackKeeps(Registered(s), id);
    OfFormatKeeps(WithoutPack(Registered(s), id));
  }

  lemma ReplacedBySelf(packs: seq<Pack>, p: Pack)
    requires DistinctIds(packs) && p in packs
    ensures Replaced(packs, p) == packs
  {
    ReplacedKeeps(packs, p);
    var j :| 0 <= j < |packs| && packs[j] == p;
    assert forall i :: 0 <= i < |packs| && packs[i].id == p.id ==> i == j;
  }

  /**
   A registry that cannot be read looks empty, and creating a pack then unregisters all the others: they
   stay exactly when the read worked or there were none.
   */
  lemma CreatingKeepsOthersIff(pack: Pack, before: Stored, read: Fate)
    requires pack.format == FORMAT
    ensures Registered(Packs([pack] + ReadBy(read, before))) == [pack] + Registered(before)
            <==> read == Works || Registered(before) == []
  {
    NewRegistryRead(pack, before, ReadBy(read, before));
    assert read != Works && Registered(before) != [] ==> |[pack] + Registered(before)| > 1;
  }
}
