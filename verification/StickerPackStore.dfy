/**
 The store of private sticker packs at work: the calls it awaits, each with its fate, and the operations
 built from them, proved to do what `StickerPacks` says of them and to keep the store sound.
 */
module StickerPackStore {
  import opened Common
  import opened StickerPaths
  import opened StickerPacks

  class Store {
    const dir: string
    var registry: Stored
    var files: Files
    var temps: set<string>

    ghost predicate IsSound()
      reads this
    {
      Sound(dir, Registered(registry), files)
    }

    ghost function LostPacks(): set<string>
      reads this
    {
      Lost(dir, Registered(registry), files)
    }

    ghost predicate ManifestsAgree()
      reads this
    {
      AllAgree(dir, Registered(registry), files)
    }

    // ------------------------------------------------ awaited calls

    /** `AsyncStorage.getItem` and the parsing, with the catch that makes a failure an empty list. */
    method ReadPacks(fate: Fate) returns (r: Outcome<seq<Pack>>)
      ensures r == if Dies(fate) then Crashed else Done(ReadBy(fate, registry))
      ensures fate == Works ==> r == Done(Registered(registry))
      ensures fate == Throws || fate == ThrowsAfter ==> r == Done([])
    {
      match fate
      case Works => r := Done(Registered(registry));
      case Throws => r := Done([]);
      case ThrowsAfter => r := Done([]);
      case _ => r := Crashed;
    }

    method WritePacks(packs: seq<Pack>, fate: Fate) returns (r: Outcome<()>)
      modifies this`registry
      ensures r == Ended(fate, ())
      ensures registry == if TookEffect(fate) then Packs(packs) else old(registry)
    {
      if TookEffect(fate) {
        registry := Packs(packs);
      }
      r := Ended(fate, ());
    }

    method WriteManifest(path: string, m: Manifest, fate: Fate) returns (r: Outcome<()>)
      modifies this`files
      ensures r == Ended(fate, ())
      ensures files == if TookEffect(fate) then old(files)[path := ManifestFile(m)] else old(files)
    {
      if TookEffect(fate) {
        files := files[path := ManifestFile(m)];
      }
      r := Ended(fate, ());
    }

    method ReadManifest(path: string, fate: Fate) returns (r: Outcome<Manifest>)
      ensures r.Done? <==> fate == Works && path in files && files[path].ManifestFile?
      ensures r.Done? ==> files[path] == ManifestFile(r.value)
      ensures r.Crashed? <==> Dies(fate)
    {
      if fate == Works && path in files && files[path].ManifestFile? {
        r := Done(files[path].manifest);
      } else {
        r := if Dies(fate) then Crashed else Threw;
      }
    }

    /** A copy that fails may leave a file of any size behind. */
    method Copy(to: string, size: nat, f: StickerFates) returns (r: Outcome<()>)
      modifies this`files
      ensures r == Ended(f.copy, ())
      ensures files == Copied(to, size, f, old(files))
    {
      if f.copy == Works {
        files := files[to := Sticker(size)];
      } else if f.partial.Some? {
        files := files[to := Sticker(f.partial.value)];
      }
      r := Ended(f.copy, ());
    }

    /** `deleteAsync(root, {idempotent: true})` on a directory. */
    method DeleteTree(root: string, fate: Fate, spared: set<string>) returns (r: Outcome<()>)
      modifies this`files
      ensures r == Ended(fate, ())
      ensures files == Remaining(root, old(files), fate, spared)
    {
      files := map path | path in files && (!(root <= path) || (!TookEffect(fate) && path in spared)) :: files[path];
      r := Ended(fate, ());
    }

    /** The native converter writes a temporary file. */
    method Convert(file: Media, fate: Fate) returns (r: Outcome<()>)
      modifies this`temps
      ensures r == Ended(fate, ())
      ensures temps == if TookEffect(fate) then old(temps) + {file.converted} else old(temps)
    {
      if TookEffect(fate) {
        temps := temps + {file.converted};
      }
      r := Ended(fate, ());
    }

    method DeleteTemp(path: string, fate: Fate) returns (r: Outcome<()>)
      modifies this`temps
      ensures r == Ended(fate, ())
      ensures temps == if TookEffect(fate) then old(temps) - {path} else old(temps)
    {
      if TookEffect(fate) {
        temps := temps - {path};
      }
      r := Ended(fate, ());
    }

    // ------------------------------------------------ creating

    /** The inner `try`: size check and copy. */
    method CheckAndCopy(file: Media, to: string, f: StickerFates) returns (r: Outcome<()>)
      modifies this`files
      ensures r == InnerEnds(file, f) && files == InnerFiles(file, to, f, old(files))
      ensures r.Done? <==> f.info == Works && 100 <= file.size <= MAX_STICKER_SIZE && f.copy == Works
      ensures OnlyAt(to, old(files), files)
      ensures r.Done? ==> files == old(files)[to := Sticker(file.size)]
    {
      var info := Ended(f.info, file.size);
      if !info.Done? {
        return if info.Threw? then Threw else Crashed;
      }
      if info.value < 100 || info.value > MAX_STICKER_SIZE {
        return Threw;
      }
      r := Copy(to, file.size, f);
      PutOnlyAt(to, old(files), if to in files then files[to] else Sticker(0));
    }

    /** One turn of the loop, with its `finally`. */
    method ConvertOne(file: Media, to: string, f: StickerFates) returns (r: Outcome<()>)
      modifies this`files, this`temps
      ensures r == OneEnds(file, f) && files == OneFiles(file, to, f, old(files))
      ensures r.Done? <==> StickerMade(file, f)
      ensures OnlyAt(to, old(files), files)
      ensures r.Done? ==> files == old(files)[to := Sticker(file.size)]
      ensures StickerSurvives(f) ==> !r.Crashed?
      ensures !r.Crashed? && TempCleared(f) ==> temps <= old(temps)
    {
      if !("image/" <= file.mime) {
        return Threw;
      }
      var converted := Convert(file, f.convert);
      if !converted.Done? {
        return converted;
      }
      r := CheckAndCopy(file, to, f);
      if !r.Crashed? {
        var deleted := DeleteTemp(file.converted, f.removeTemp);
        if deleted.Crashed? {
          r := Crashed;
        }
      }
    }

    method ConvertAll(media: seq<Media>, id: string, itemIds: seq<string>, fs: seq<StickerFates>)
      returns (r: Outcome<seq<Item>>)
      requires |itemIds| == |media| == |fs|
      modifies this`files, this`temps
      ensures SameEnd(r, AllEnds(media, fs)) && files == AllFiles(dir, id, media, fs, old(files))
      ensures OnlyUnder(Root(dir, id), old(files), files)
      ensures r.Done? <==> AllMade(media, fs)
      ensures r.Done? ==> r.value == NewItems(dir, id, media, itemIds)
                          && files == Filled(dir, id, old(files), Sizes(media))
      ensures !r.Crashed? && TempsCleared(fs) ==> temps <= old(temps)
    {
      AllDoneIff(media, fs);
      AllFilesOnlyUnder(dir, id, media, fs, files);
      if AllMade(media, fs) {
        AllMadeIsFilled(dir, id, media, fs, files);
      }
      var items: seq<Item> := [];
      for index := 0 to |media|
        invariant items == NewItems(dir, id, media[..index], itemIds[..index])
        invariant AllEnds(media[..index], fs[..index]).Done?
        invariant files == AllFiles(dir, id, media[..index], fs[..index], old(files))
        invariant TempsCleared(fs) ==> temps <= old(temps)
      {
        var uri := StickerPath(dir, id, index);
        var one := ConvertOne(media[index], uri, fs[index]);
        OneMore(dir, id, media, itemIds, fs, index, old(files));
        if !one.Done? {
          StopsThere(dir, id, media, fs, index + 1, old(files));
          return if one.Threw? then Threw else Crashed;
        }
        items := items + [Item(itemIds[index], uri, media[index].name + WEBP, "image/webp")];
      }
      assert media[..|media|] == media && itemIds[..|itemIds|] == itemIds && fs[..|fs|] == fs;
      r := Done(items);
    }

    /** The end of the outer `try`: the complete manifest, and only then the registry. */
    method RegisterPack(pack: Pack, f: CreateFates) returns (r: Outcome<()>)
      modifies this`files, this`registry
      ensures r == RegisterEnds(f)
      ensures files == if TookEffect(f.manifest) then WithManifest(dir, pack, old(files)) else old(files)
      ensures registry == if f.manifest == Works && !Dies(f.read) && TookEffect(f.register)
                          then Packs([pack] + ReadBy(f.read, old(registry))) else old(registry)
    {
      r := WriteManifest(ManifestPath(dir, pack.id), ManifestOf(dir, pack), f.manifest);
      if !r.Done? {
        return;
      }
      var existing := ReadPacks(f.read);
      if !existing.Done? {
        return Crashed;
      }
      r := WritePacks([pack] + existing.value, f.register);
    }

    /** The outer `try`. */
    method BuildPack(name: Text, media: seq<Media>, id: string, itemIds: seq<string>, now: string, f: CreateFates)
      returns (r: Outcome<Pack>)
      requires |itemIds| == |media| == |f.stickers|
      modifies this
      ensures var pack := NewPack(dir, name, media, id, itemIds, now);
              && SameEnd(r, BuildEnds(media, f))
              && (r.Done? ==> r.value == pack && r.value.name == name && r.value.id == id && r.value.createdAt == now)
              && files == FilesBuilt(dir, pack, media, f, old(files))
              && registry == (if Registers(media, f) && TookEffect(f.register)
                              then Packs([pack] + ReadBy(f.read, old(registry))) else old(registry))
      ensures r.Done? <==> Registers(media, f) && f.register == Works
      ensures !r.Crashed? && TempsCleared(f.stickers) ==> temps <= old(temps)
    {
      AllDoneIff(media, f.stickers);
      var items := ConvertAll(media, id, itemIds, f.stickers);
      if !items.Done? {
        return if items.Threw? then Threw else Crashed;
      }
      var pack := Pack(id, name, now, FORMAT, items.value);
      var registered := RegisterPack(pack, f);
      r := if registered.Done? then Done(pack) else if registered.Threw? then Threw else Crashed;
    }

    /** The outer `try` and its `catch`, which deletes the directory and throws again. */
    method BuildOrCleanUp(name: Text, media: seq<Media>, id: string, itemIds: seq<string>, now: string, f: CreateFates)
      returns (r: Outcome<Pack>)
      requires |itemIds| == |media| == |f.stickers|
      modifies this
      ensures var pack, ends := NewPack(dir, name, media, id, itemIds, now), BuildEnds(media, f);
              && SameEnd(r, if ends.Threw? && Dies(f.removeRoot) then Crashed else ends)
              && (r.Done? ==> r.value == pack)
              && files == (var built := FilesBuilt(dir, pack, media, f, old(files));
                           if ends.Threw? then Remaining(Root(dir, id), built, f.removeRoot, f.spared) else built)
              && registry == (if Registers(media, f) && TookEffect(f.register)
                              then Packs([pack] + ReadBy(f.read, old(registry))) else old(registry))
      ensures !r.Crashed? && TempsCleared(f.stickers) ==> temps <= old(temps)
    {
      r := BuildPack(name, media, id, itemIds, now, f);
      if r.Threw? {
        var deleted := DeleteTree(Root(dir, id), f.removeRoot, f.spared);
        if deleted.Crashed? {
          r := Crashed;
        }
      }
    }

    /**
     `createKnowStickerPack`. It succeeds exactly when the input is valid and its calls work, and puts one pack
     in front of those that were read; an exception after which the clean-up takes effect leaves no file; and
     no registered pack loses a file wherever it stops, unless an exception hides a registry write that took
     effect.
     */
    method CreateKnowStickerPack(
        name: Text, media: seq<Media>, id: string, itemIds: seq<string>, now: string, f: CreateFates)
      returns (r: Outcome<Pack>)
      requires |itemIds| == |media| == |f.stickers|
      requires IsSound() && Unused(dir, id, Registered(registry), files)
      modifies this
      ensures IsSound() && LostPacks() == LostByCreate(dir, name, media, id, f, old(LostPacks()))
      ensures old(ManifestsAgree()) && f.register != ThrowsAfter ==> ManifestsAgree()
      ensures OnlyUnder(Root(dir, id), old(files), files)
      ensures SameEnd(r, CreateEnds(name, media, f))
      ensures r.Done? <==> ReachesRegistry(name, media, f) && f.register == Works
      ensures CreateSurvives(f) ==> !r.Crashed?
      ensures var pack := NewPack(dir, Trim(name), media, id, itemIds, now);
              && registry == RegistryAfterCreate(pack, name, media, f, old(registry))
              && files == FilesAfterCreate(dir, pack, name, media, f, old(files))
              && (r.Done? ==> r.value == pack)
      ensures r.Done? ==> IsPackOf(r.value, dir, Trim(name), media, id, itemIds, now) && HasStickers(dir, id, media, files)
      ensures ReachesRegistry(name, media, f) && TookEffect(f.register) ==>
        Registered(registry) != [] && IsPackOf(Registered(registry)[0], dir, Trim(name), media, id, itemIds, now)
      ensures r.Done? ==>
        && files == WithManifest(dir, r.value, Filled(dir, id, old(files), Sizes(media)))
        && Directory(Root(dir, id), files) == PackPaths(dir, id, |media|)
        && |Directory(Root(dir, id), files)| == |media| + 1
        && Agrees(dir, r.value, files)
      ensures r.Done? ==> (Registered(registry) == [r.value] + Registered(old(registry))
                           <==> f.read == Works || Registered(old(registry)) == [])
      ensures r.Threw? && f.register != ThrowsAfter ==> registry == old(registry)
      ensures r.Threw? && TookEffect(f.removeRoot) ==> files == old(files)
      ensures !r.Crashed? && TempsCleared(f.stickers) ==> temps <= old(temps)
    {
      ghost var pack := NewPack(dir, Trim(name), media, id, itemIds, now);
      CreateOutcome(dir, pack, name, media, itemIds, f, registry, files);
      CreateShows(dir, pack, name, media, itemIds, f, registry, files);
      CreateGives(dir, name, media, id, itemIds, now, f, registry, files);
      if ManifestsAgree() && f.register != ThrowsAfter {
        CreateKeepsAgreement(dir, pack, name, media, itemIds, f, registry, files);
      }
      var trimmed := Trim(name);
      if |trimmed| < 1 || |trimmed| > 80 || |media| == 0 || |media| > 120 {
        return Threw;
      }
      var made := Ended(f.makeRoot, ());  // makeDirectoryAsync, outside the try
      if !made.Done? {
        return if made.Threw? then Threw else Crashed;
      }
      r := BuildOrCleanUp(trimmed, media, id, itemIds, now, f);
    }

    // ------------------------------------------------ renaming

    /**
     `saveRenamedPack`: the manifest first, then the registry; a registry that cannot be written puts the old
     manifest back, if that can be written.
     */
    method SaveRenamedPack(previous: Pack, updated: Pack, packs: seq<Pack>, f: RenameFates) returns (r: Outcome<Pack>)
      requires previous.id == updated.id
      modifies this`registry, this`files
      ensures files == if HasManifest(dir, previous.id, old(files)) && ManifestChanges(f)
                       then WithManifest(dir, updated, old(files)) else old(files)
      ensures registry == if HasManifest(dir, previous.id, old(files)) && RegistryChanges(f)
                          then Packs(Replaced(packs, updated)) else old(registry)
      ensures r.Done? <==> HasManifest(dir, previous.id, old(files)) && RenameCompletes(f)
      ensures r.Done? ==> r.value == updated
      ensures HasManifest(dir, previous.id, old(files)) ==> (r.Threw? <==> RenameThrows(f))
      ensures registry != old(registry) ==> f.writeManifest == Works && TookEffect(f.register)
      ensures f.writeManifest == Throws ==> files == old(files) && registry == old(registry)
      ensures f.writeManifest == Works && f.register == Throws && f.restore == Works
              ==> files == old(files) && registry == old(registry) && !r.Done?
      ensures r.Done? ==> files == WithManifest(dir, updated, old(files)) && registry == Packs(Replaced(packs, updated))
      ensures RenameSurvives(f) ==> !r.Crashed?
    {
      if !ValidId(previous.id) {
        return Threw;
      }
      var path := ManifestPath(dir, previous.id);
      var oldManifest := ReadManifest(path, f.readManifest);
      if !oldManifest.Done? {
        return if oldManifest.Threw? then Threw else Crashed;
      }
      var written := WriteManifest(path, ManifestOf(dir, updated), f.writeManifest);
      if !written.Done? {
        return if written.Threw? then Threw else Crashed;
      }
      var saved := WritePacks(Replaced(packs, updated), f.register);
      if saved.Threw? {
        var restored := WriteManifest(path, oldManifest.value, f.restore);
        assert old(files)[path := ManifestFile(ManifestOf(dir, updated))][path := ManifestFile(oldManifest.value)] == old(files);
        return if restored.Crashed? then Crashed else Threw;
      }
      r := if saved.Done? then Done(updated) else Crashed;
    }

    /**
     `renameKnowStickerPack`; `newName` is what `normalizeKnowStickerLabel` makes of the input, if it accepts it.
     Manifests still agree afterwards exactly when manifest and registry both changed, or neither did.
     */
    method RenameKnowStickerPack(id: string, newName: Option<Text>, f: RenameFates) returns (r: Outcome<Pack>)
      requires IsSound()
      modifies this`registry, this`files
      ensures IsSound() && LostPacks() == old(LostPacks())
      ensures var found, q := Find(ReadBy(f.read, old(registry)), id), PackAfterRename(old(registry), f.read, id, newName);
              && (r.Done? <==> newName.Some? && found.Some?
                               && (q.Some? ==> HasManifest(dir, id, old(files)) && RenameCompletes(f)))
              && (r.Done? ==> r.value == if q.Some? then q.value else found.value)
              && registry == RegistryAfterRename(dir, old(registry), old(files), q, f)
              && files == FilesAfterRename(dir, old(files), q, f)
              && (old(ManifestsAgree()) ==>
                    (ManifestsAgree() <==> q.None? || (ManifestChanges(f) <==> RegistryChanges(f))))
      ensures RenameSurvives(f) ==> !r.Crashed?
      ensures r.Done? ==> PackRenamed(dir, Registered(old(registry)), Registered(registry), files, newName.value, r.value)
      ensures r.Threw? && RollsBack(f) ==> registry == old(registry) && files == old(files)
    {
      if newName.None? {
        return Threw;
      }
      RollbackChangesNothing(f);
      PackRenameOutcome(dir, registry, files, id, newName.value, f);
      var packs := ReadPacks(f.read);
      if !packs.Done? {
        return Crashed;
      }
      var found := Find(packs.value, id);
      if found.None? {
        return Threw;
      }
      if (HasManifest(dir, id, files) && RenameCompletes(f)) || found.value.name == newName.value {
        PackRenameShows(dir, registry, files, id, newName.value, f);
      }
      if found.value.name == newName.value {
        return Done(found.value);
      }
      r := SaveRenamedPack(found.value, found.value.(name := newName.value), packs.value, f);
    }

    /** `renameKnowStickerItem`; `newName` is what `knowStickerUploadName` makes of the input, if it accepts it. */
    method RenameKnowStickerItem(packId: string, itemId: string, newName: Option<Text>, f: RenameFates)
      returns (r: Outcome<Pack>)
      requires IsSound()
      modifies this`registry, this`files
      ensures IsSound() && LostPacks() == old(LostPacks())
      ensures var found, q := Find(ReadBy(f.read, old(registry)), packId),
                              PackAfterItemRename(old(registry), f.read, packId, itemId, newName);
              && (r.Done? <==> newName.Some? && ItemToRename(old(registry), f.read, packId, itemId).Some?
                               && (q.Some? ==> HasManifest(dir, packId, old(files)) && RenameCompletes(f)))
              && (r.Done? ==> r.value == if q.Some? then q.value else found.value)
              && registry == RegistryAfterRename(dir, old(registry), old(files), q, f)
              && files == FilesAfterRename(dir, old(files), q, f)
              && (old(ManifestsAgree()) ==>
                    (ManifestsAgree() <==> q.None? || (ManifestChanges(f) <==> RegistryChanges(f))))
      ensures RenameSurvives(f) ==> !r.Crashed?
      ensures r.Done? ==>
        ItemRenamed(dir, Registered(old(registry)), Registered(registry), files, itemId, newName.value, r.value)
      ensures r.Threw? && RollsBack(f) ==> registry == old(registry) && files == old(files)
    {
      if newName.None? {
        return Threw;
      }
      RollbackChangesNothing(f);
      ItemRenameOutcome(dir, registry, files, packId, itemId, newName.value, f);
      var packs := ReadPacks(f.read);
      if !packs.Done? {
        return Crashed;
      }
      var found := Find(packs.value, packId);
      if found.None? {
        return Threw;
      }
      var item := FindItem(found.value.items, itemId);
      if item.None? {
        return Threw;
      }
      if (HasManifest(dir, packId, files) && RenameCompletes(f)) || item.value.name == newName.value {
        ItemRenameShows(dir, registry, files, packId, itemId, newName.value, f);
      }
      if item.value.name == newName.value {
        return Done(found.value);
      }
      var items := RenamedItems(found.value.items, itemId, newName.value);
      r := SaveRenamedPack(found.value, found.value.(items := items), packs.value, f);
    }

    // ------------------------------------------------ deleting

    /**
     `deleteKnowStickerPack`: the registry first, then the directory, whose failure is ignored. A normal return
     leaves the pack unregistered exactly when the registry could be read or did not hold it.
     */
    method DeleteKnowStickerPack(id: string, f: DeleteFates) returns (r: Outcome<()>)
      requires IsSound()
      modifies this`registry, this`files
      ensures IsSound() && LostPacks() == LostByDelete(old(registry), id, f, old(LostPacks()))
      ensures r.Done? <==> DeleteCompletes(old(registry), id, f)
      ensures registry == RegistryAfterDelete(old(registry), id, f)
      ensures files == FilesAfterDelete(dir, old(registry), old(files), id, f)
      ensures r.Done? ==> (IsUnregistered(id, registry) <==> f.read == Works || IsUnregistered(id, old(registry)))
      ensures r.Done? && f.read == Works && TookEffect(f.removeRoot) && !IsUnregistered(id, old(registry))
              ==> EmptyUnder(Root(dir, id), files)
      ensures DeleteSurvives(f) ==> !r.Crashed?
      ensures PartOf(Root(dir, id), old(files), files)
      ensures old(ManifestsAgree()) ==> ManifestsAgree()
    {
      DeleteOutcome(dir, registry, files, id, f);
      DeleteShows(dir, registry, files, id, f);
      var packs := ReadPacks(f.read);
      if !packs.Done? {
        return Crashed;
      }
      var found := Find(packs.value, id);
      if found.None? {
        return Done(());
      }
      r := WritePacks(WithoutPack(packs.value, id), f.register);
      if r.Done? && ValidId(id) {
        var deleted := DeleteTree(Root(dir, id), f.removeRoot, f.spared);
        if deleted.Crashed? {
          r := Crashed;
        }
      }
    }

    // ------------------------------------------------ serial runs

    /**
     Operations one after the other, each of which may succeed, throw or crash the process anywhere. Which
     registered packs are intact afterwards is known exactly.
     */
    method Session(operations: seq<Operation>)
      requires IsSound()
      modifies this
      ensures Disk(registry, files) == Run(dir, Disk(old(registry), old(files)), operations)
      ensures IsSound()
      ensures var lost := LostByRun(dir, Disk(old(registry), old(files)), operations, old(LostPacks()));
              && LostPacks() == lost
              && forall p :: p in Registered(registry) ==> (Intact(dir, p, files) <==> p.id !in lost)
      decreases |operations|
    {
      IntactIffNotLost(dir, Registered(registry), files);
      if operations == [] {
        return;
      }
      match operations[0] {
        case Create(name, media, id, itemIds, now, made) =>
          if |itemIds| == |media| == |made.stickers| && Unused(dir, id, Registered(registry), files) {
            var _ := CreateKnowStickerPack(name, media, id, itemIds, now, made);
          }
        case RenamePack(id, newName, renamed) =>
          var _ := RenameKnowStickerPack(id, newName, renamed);
        case RenameItem(packId, itemId, newName, renamed) =>
          var _ := RenameKnowStickerItem(packId, itemId, newName, renamed);
        case Delete(id, deleted) =>
          var _ := DeleteKnowStickerPack(id, deleted);
      }
      Session(operations[1..]);
    }
  }

  // ---------------------------------------------------------------- lemmas for the loop

  predicate SameEnd<T, U>(a: Outcome<T>, b: Outcome<U>) {
    (a.Done? <==> b.Done?) && (a.Threw? <==> b.Threw?)
  }

  lemma OneMore(
      dir: string, id: string, media: seq<Media>, itemIds: seq<string>, fs: seq<StickerFates>, index: nat, files: Files)
    requires |itemIds| == |media| == |fs| && index < |media| && AllEnds(media[..index], fs[..index]).Done?
    ensures var uri := StickerPath(dir, id, index);
            && NewItems(dir, id, media[..index + 1], itemIds[..index + 1]) ==
               NewItems(dir, id, media[..index], itemIds[..index])
               + [Item(itemIds[index], uri, media[index].name + WEBP, "image/webp")]
            && AllEnds(media[..index + 1], fs[..index + 1]) == OneEnds(media[index], fs[index])
            && AllFiles(dir, id, media[..index + 1], fs[..index + 1], files) ==
               OneFiles(media[index], uri, fs[index], AllFiles(dir, id, media[..index], fs[..index], files))
  {
    assert media[..index + 1][..index] == media[..index];
    assert itemIds[..index + 1][..index] == itemIds[..index] && fs[..index + 1][..index] == fs[..index];
  }

  /** What comes after a medium that was not made is not touched. */
  lemma {:induction false} StopsThere(
      dir: string, id: string, media: seq<Media>, fs: seq<StickerFates>, n: nat, files: Files)
    requires n <= |media| == |fs| && !AllEnds(media[..n], fs[..n]).Done?
    ensures AllEnds(media, fs) == AllEnds(media[..n], fs[..n])
    ensures AllFiles(dir, id, media, fs, files) == AllFiles(dir, id, media[..n], fs[..n], files)
  {
    if n == |media| {
      assert media[..n] == media && fs[..n] == fs;
    } else {
      var last := |media| - 1;
      assert media[..last][..n] == media[..n] && fs[..last][..n] == fs[..n];
      StopsThere(dir, id, media[..last], fs[..last], n, files);
    }
  }

  /** What a caller may conclude from the end of a creation. */
  lemma CreateShows(
      dir: string, p: Pack, name: Text, media: seq<Media>, itemIds: seq<string>, f: CreateFates, s: Stored, files: Files)
    requires |itemIds| == |media| == |f.stickers| && p.items == NewItems(dir, p.id, media, itemIds) && p.format == FORMAT
    requires Unused(dir, p.id, Registered(s), files)
    ensures var ends, now := CreateEnds(name, media, f), FilesAfterCreate(dir, p, name, media, f, files);
            && (ends.Done? <==> ReachesRegistry(name, media, f) && f.register == Works)
            && (CreateSurvives(f) ==> !ends.Crashed?)
            && OnlyUnder(Root(dir, p.id), files, now)
            && (ends.Threw? && TookEffect(f.removeRoot) ==> now == files)
            && (ends.Threw? && f.register != ThrowsAfter ==> !RegistersPack(name, media, f))
            && (ends.Done? ==>
                  && now == WithManifest(dir, p, Filled(dir, p.id, files, Sizes(media)))
                  && Directory(Root(dir, p.id), now) == PackPaths(dir, p.id, |media|)
                  && |Directory(Root(dir, p.id), now)| == |media| + 1
                  && Agrees(dir, p, now)
                  && (Registered(RegistryAfterCreate(p, name, media, f, s)) == [p] + Registered(s)
                      <==> f.read == Works || Registered(s) == []))
  {
    CreateEndsIff(name, media, f);
    CreatedFiles(dir, p, name, media, f, files);
    if RegistersPack(name, media, f) {
      RegisteredPack(dir, p, name, media, itemIds, f, files);
      CreatedDirectory(dir, p, media, Registered(s), files);
      CreatingKeepsOthersIff(p, s, f.read);
    }
  }

  /** A label of 1 to 80 characters, and 1 to 120 images of 100 bytes to 8 MiB once converted. */
  predicate ValidRequest(name: Text, media: seq<Media>) {
    && 1 <= |Trim(name)| <= 80 && 1 <= |media| <= 120
    && forall i :: 0 <= i < |media| ==> "image/" <= media[i].mime && 100 <= media[i].size <= 8 * 1024 * 1024
  }

  predicate AllWork(f: CreateFates) {
    && f.makeRoot == f.manifest == f.read == f.register == Works
    && forall i :: 0 <= i < |f.stickers| ==>
         && f.stickers[i].convert == f.stickers[i].info == Works
         && f.stickers[i].copy == f.stickers[i].removeTemp == Works
  }

  /** In plain terms: only a valid request succeeds, and it does when every call works. */
  lemma CreateSucceedsFor(name: Text, media: seq<Media>, f: CreateFates)
    requires |f.stickers| == |media|
    ensures CreateEnds(name, media, f).Done? ==> ValidRequest(name, media)
    ensures ValidRequest(name, media) && AllWork(f) ==> CreateEnds(name, media, f).Done?
  {
    CreateEndsIff(name, media, f);
    if CreateEnds(name, media, f).Done? {
      forall i | 0 <= i < |media| ensures AcceptedMedium(media[i]) {
        assert StickerMade(media[i], f.stickers[i]);
      }
    }
  }

  /** What has been created, whatever the creation is called with. */
  lemma CreateGives(
      dir: string, name: Text, media: seq<Media>, id: string, itemIds: seq<string>, now: string, f: CreateFates,
      s: Stored, files: Files)
    requires |itemIds| == |media| == |f.stickers|
    ensures var p := NewPack(dir, Trim(name), media, id, itemIds, now);
            && IsPackOf(p, dir, Trim(name), media, id, itemIds, now)
            && (CreateEnds(name, media, f).Done? ==> HasStickers(dir, id, media, FilesAfterCreate(dir, p, name, media, f, files)))
    ensures RegistersPack(name, media, f) ==>
              var p := NewPack(dir, Trim(name), media, id, itemIds, now);
              var after := Registered(RegistryAfterCreate(p, name, media, f, s));
              after != [] && IsPackOf(after[0], dir, Trim(name), media, id, itemIds, now)
  {
    var p := NewPack(dir, Trim(name), media, id, itemIds, now);
    NewItemsAre(dir, id, media, itemIds);
    CreateEndsIff(name, media, f);
    CreatedStickers(dir, p, media, files);
    if RegistersPack(name, media, f) {
      RegisteredFiles(dir, p, name, media, f, files);
      RegisteredPackIs(dir, name, media, id, itemIds, now, f, s);
    }
  }

  // ---------------------------------------------------------------- serial runs as values

  datatype Operation =
    | Create(name: Text, media: seq<Media>, id: string, itemIds: seq<string>, now: string, made: CreateFates)
    | RenamePack(id: string, newName: Option<Text>, renamed: RenameFates)
    | RenameItem(packId: string, itemId: string, newName: Option<Text>, renamed: RenameFates)
    | Delete(id: string, deleted: DeleteFates)

  datatype Disk = Disk(registry: Stored, files: Files)

  /** A new identifier that happened to be taken is passed over, as identifiers are drawn at random. */
  predicate Creates(dir: string, d: Disk, o: Operation) {
    && o.Create? && |o.itemIds| == |o.media| == |o.made.stickers|
    && Unused(dir, o.id, Registered(d.registry), d.files)
  }

  function After(dir: string, d: Disk, o: Operation): Disk {
    match o
    case Create(name, media, id, itemIds, now, made) =>
      if !Creates(dir, d, o) then d else
        var p := NewPack(dir, Trim(name), media, id, itemIds, now);
        Disk(RegistryAfterCreate(p, name, media, made, d.registry), FilesAfterCreate(dir, p, name, media, made, d.files))
    case RenamePack(id, newName, renamed) =>
      var q := PackAfterRename(d.registry, renamed.read, id, newName);
      Disk(RegistryAfterRename(dir, d.registry, d.files, q, renamed), FilesAfterRename(dir, d.files, q, renamed))
    case RenameItem(packId, itemId, newName, renamed) =>
      var q := PackAfterItemRename(d.registry, renamed.read, packId, itemId, newName);
      Disk(RegistryAfterRename(dir, d.registry, d.files, q, renamed), FilesAfterRename(dir, d.files, q, renamed))
    case Delete(id, deleted) =>
      Disk(RegistryAfterDelete(d.registry, id, deleted), FilesAfterDelete(dir, d.registry, d.files, id, deleted))
  }

  function Run(dir: string, d: Disk, operations: seq<Operation>): Disk
    decreases |operations|
  {
    if operations == [] then d else Run(dir, After(dir, d, operations[0]), operations[1..])
  }

  /** The packs of which a file is missing after one more operation. */
  function LostBy(dir: string, d: Disk, o: Operation, lost: set<string>): set<string> {
    match o
    case Create(name, media, id, _, _, made) =>
      if Creates(dir, d, o) then LostByCreate(dir, name, media, id, made, lost) else lost
    case Delete(id, deleted) => LostByDelete(d.registry, id, deleted, lost)
    case _ => lost
  }

  function LostByRun(dir: string, d: Disk, operations: seq<Operation>, lost: set<string>): set<string>
    decreases |operations|
  {
    if operations == [] then lost else
      LostByRun(dir, After(dir, d, operations[0]), operations[1..], LostBy(dir, d, operations[0], lost))
  }

  ghost predicate SoundDisk(dir: string, d: Disk) {
    Sound(dir, Registered(d.registry), d.files)
  }

  ghost predicate ConsistentDisk(dir: string, d: Disk) {
    Consistent(dir, Registered(d.registry), d.files)
  }

  ghost function LostOn(dir: string, d: Disk): set<string> {
    Lost(dir, Registered(d.registry), d.files)
  }

  lemma AfterKeepsSound(dir: string, d: Disk, o: Operation)
    requires SoundDisk(dir, d)
    ensures SoundDisk(dir, After(dir, d, o)) && LostOn(dir, After(dir, d, o)) == LostBy(dir, d, o, LostOn(dir, d))
  {
    match o
    case Create(name, media, id, itemIds, now, made) =>
      if Creates(dir, d, o) {
        var p := NewPack(dir, Trim(name), media, id, itemIds, now);
        CreateOutcome(dir, p, name, media, itemIds, made, d.registry, d.files);
      }
    case RenamePack(id, newName, renamed) =>
      if newName.Some? {
        PackRenameOutcome(dir, d.registry, d.files, id, newName.value, renamed);
      }
    case RenameItem(packId, itemId, newName, renamed) =>
      if newName.Some? {
        ItemRenameOutcome(dir, d.registry, d.files, packId, itemId, newName.value, renamed);
      }
    case Delete(id, deleted) => DeleteOutcome(dir, d.registry, d.files, id, deleted);
  }

  /**
   After any serial run, stopped anywhere, what is on disk of a registered pack is right, and a pack is intact
   if and only if it is not among those that `LostByRun` names from the operations and their fates.
   */
  lemma {:induction false} RunLosesExactly(dir: string, d: Disk, operations: seq<Operation>)
    requires SoundDisk(dir, d)
    ensures var t := Run(dir, d, operations);
            && SoundDisk(dir, t)
            && LostOn(dir, t) == LostByRun(dir, d, operations, LostOn(dir, d))
            && forall p :: p in Registered(t.registry) ==>
                 (Intact(dir, p, t.files) <==> p.id !in LostByRun(dir, d, operations, LostOn(dir, d)))
    decreases |operations|
  {
    if operations == [] {
      IntactIffNotLost(dir, Registered(d.registry), d.files);
    } else {
      AfterKeepsSound(dir, d, operations[0]);
      RunLosesExactly(dir, After(dir, d, operations[0]), operations[1..]);
    }
  }

  /** No creation of the run hides a registry write behind an exception and then loses files of its pack. */
  predicate NoneBreaks(dir: string, d: Disk, operations: seq<Operation>)
    decreases |operations|
  {
    operations == [] ||
    var o := operations[0];
    && (Creates(dir, d, o) ==> !BreaksNewPack(dir, o.name, o.media, o.id, o.made))
    && NoneBreaks(dir, After(dir, d, o), operations[1..])
  }

  ghost predicate AlwaysConsistent(dir: string, d: Disk, operations: seq<Operation>)
    decreases |operations|
  {
    && ConsistentDisk(dir, d)
    && (operations == [] || AlwaysConsistent(dir, After(dir, d, operations[0]), operations[1..]))
  }

  /** From a consistent store, it stays so all the time if and only if no creation breaks its own pack. */
  lemma {:induction false} AlwaysConsistentIff(dir: string, d: Disk, operations: seq<Operation>)
    requires ConsistentDisk(dir, d)
    ensures AlwaysConsistent(dir, d, operations) <==> NoneBreaks(dir, d, operations)
    decreases |operations|
  {
    if operations != [] {
      var o, t := operations[0], After(dir, d, operations[0]);
      StaysConsistentIff(dir, d, o);
      if ConsistentDisk(dir, t) {
        AlwaysConsistentIff(dir, t, operations[1..]);
      } else {
        assert !AlwaysConsistent(dir, t, operations[1..]);
      }
    }
  }

  lemma StaysConsistentIff(dir: string, d: Disk, o: Operation)
    requires ConsistentDisk(dir, d)
    ensures ConsistentDisk(dir, After(dir, d, o))
            <==> (Creates(dir, d, o) ==> !BreaksNewPack(dir, o.name, o.media, o.id, o.made))
  {
    ConsistentIffNothingLost(dir, Registered(d.registry), d.files);
    AfterKeepsSound(dir, d, o);
    ConsistentIffNothingLost(dir, Registered(After(dir, d, o).registry), After(dir, d, o).files);
  }

  // ---------------------------------------------------------------- one input for each failure

  const OneImage: seq<Media> := [Media([], "image/png", "t", 100)]

  function OneSticker(read: Fate, register: Fate): CreateFates {
    CreateFates(Works, [StickerFates(Works, Works, Works, None, Works)], Works, read, register, Works, {})
  }

  function CreateOne(id: string, read: Fate, register: Fate): Operation {
    Create([97], OneImage, id, ["i"], "", OneSticker(read, register))
  }

  const Nothing := Disk(Missing, map[])

  lemma OneImageRegisters(read: Fate, register: Fate)
    requires !Dies(read)
    ensures ReachesRegistry([97], OneImage, OneSticker(read, register)) && Trim([97]) == [97]
  {
    assert TrimStart([97]) == [97];
  }

  /** Created from nothing with every call working: one pack, and its manifest. */
  lemma OnePackCreated(dir: string) returns (p: Pack)
    ensures var d := After(dir, Nothing, CreateOne("ks-a", Works, Works));
            && p.id == "ks-a" && p.name == [97]
            && Registered(d.registry) == [p] && ConsistentDisk(dir, d) && AllAgree(dir, [p], d.files)
            && OnlyUnder(Root(dir, "ks-a"), map[], d.files)
  {
    var f := OneSticker(Works, Works);
    p := NewPack(dir, [97], OneImage, "ks-a", ["i"], "");
    OneImageRegisters(Works, Works);
    assert Creates(dir, Nothing, CreateOne("ks-a", Works, Works));
    NewRegistryRead(p, Missing, []);
    assert [p] + [] == [p];
    StaysConsistentIff(dir, Nothing, CreateOne("ks-a", Works, Works));
    CreateKeepsAgreement(dir, p, [97], OneImage, ["i"], f, Missing, map[]);
    CreatedFiles(dir, p, [97], OneImage, f, map[]);
  }

  /** The registry write takes effect and throws, and the clean-up deletes the registered pack's files. */
  lemma CleanUpCanBreakPack(dir: string)
    ensures ConsistentDisk(dir, Nothing)
    ensures !ConsistentDisk(dir, After(dir, Nothing, CreateOne("ks-a", Works, ThrowsAfter)))
  {
    OneImageRegisters(Works, ThrowsAfter);
    assert Creates(dir, Nothing, CreateOne("ks-a", Works, ThrowsAfter));
    StaysConsistentIff(dir, Nothing, CreateOne("ks-a", Works, ThrowsAfter));
  }

  /** Neither the registry nor the old manifest can be written. */
  lemma RenameCanDisagree(dir: string)
    ensures var d := After(dir, Nothing, CreateOne("ks-a", Works, Works));
            var t := After(dir, d, RenamePack("ks-a", Some([98]), RenameFates(Works, Works, Works, Throws, Throws)));
            AllAgree(dir, Registered(d.registry), d.files) && !AllAgree(dir, Registered(t.registry), t.files)
  {
    var p := OnePackCreated(dir);
    var d, f := After(dir, Nothing, CreateOne("ks-a", Works, Works)), RenameFates(Works, Works, Works, Throws, Throws);
    ConsistentIffNothingLost(dir, Registered(d.registry), d.files);
    assert Find([p], "ks-a") == Some(p);
    PackRenameOutcome(dir, d.registry, d.files, "ks-a", [98], f);
  }

  /** A registry that cannot be read looks empty to a deletion, which returns as if it had done its work. */
  lemma DeletionCanLeavePack(dir: string)
    ensures var d, f := After(dir, Nothing, CreateOne("ks-a", Works, Works)), DeleteFates(Throws, Works, Works, {});
            DeleteCompletes(d.registry, "ks-a", f) && !IsUnregistered("ks-a", RegistryAfterDelete(d.registry, "ks-a", f))
  {
    var p := OnePackCreated(dir);
    assert p in [p];
  }

  /** The same fault makes a second creation unregister the first pack. */
  lemma CreationCanUnregister(dir: string)
    ensures var d := After(dir, Nothing, CreateOne("ks-a", Works, Works));
            var t := After(dir, d, CreateOne("ks-b", Throws, Works));
            !IsUnregistered("ks-a", d.registry) && IsUnregistered("ks-a", t.registry)
  {
    var p := OnePackCreated(dir);
    var d, q := After(dir, Nothing, CreateOne("ks-a", Works, Works)), NewPack(dir, [97], OneImage, "ks-b", ["i"], "");
    OneImageRegisters(Throws, Works);
    assert "ks-a"[3] != "ks-b"[3];
    forall path | path in d.files ensures !(Root(dir, "ks-b") <= path) {
      assert !Same(path, map[], d.files);
      if Root(dir, "ks-b") <= path {
        RootsShareNoPath(dir, "ks-a", "ks-b", path);
      }
    }
    assert Creates(dir, d, CreateOne("ks-b", Throws, Works));
    NewRegistryRead(q, d.registry, []);
    assert p in [p];
  }
}
