/** The assets of the canister: the buffer, its filename index, and the upload buffer. */
module Assets {
  import opened Wrappers
  import opened AssetIndex

  datatype Color = Color(name: string, base: string, specular: string, emissive: string, background: string)

  datatype State = State(assets: seq<Record>, colors: seq<Color>, stockColors: seq<Color>)

  const CONFIRMATION := "DELETE ALL ASSETS"

  const UNCONFIRMED := "Please confirm your intention to delete all assets by typing in \"DELETE ALL ASSETS\""

  lemma PutAllNeverTraps(rs: seq<Record>)
    ensures PutAll(EMPTY, rs).Value?
  {
    PutAllKeeps(EMPTY, rs, "");
  }

  lemma PutAllNext(s: Store, rs: seq<Record>, i: nat)
    requires i < |rs| && PutAll(s, rs[..i]).Value?
    ensures PutAll(s, rs[..i + 1]) == Put(PutAll(s, rs[..i]).value, rs[i])
  {
    assert rs[..i + 1][..i] == rs[..i];
  }

  lemma {:induction false} PutAllTraps(s: Store, rs: seq<Record>, i: nat)
    requires i <= |rs| && PutAll(s, rs[..i]).Trap?
    ensures PutAll(s, rs).Trap?
    decreases |rs| - i
  {
    if i < |rs| {
      assert rs[..i + 1][..i] == rs[..i];
      PutAllTraps(s, rs, i + 1);
    } else {
      assert rs[..i] == rs;
    }
  }

  lemma TagAllNext(s: Store, entries: seq<(Filename, seq<Tag>)>, i: nat)
    requires i < |entries| && TagAll(s, entries[..i]).Value?
    ensures TagAll(s, entries[..i + 1]) == TagOne(TagAll(s, entries[..i]).value, entries[i].0, entries[i].1)
  {
    assert entries[..i + 1][..i] == entries[..i];
  }

  lemma {:induction false} TagAllTraps(s: Store, entries: seq<(Filename, seq<Tag>)>, i: nat)
    requires i <= |entries| && TagAll(s, entries[..i]).Trap?
    ensures TagAll(s, entries).Trap?
    decreases |entries| - i
  {
    if i < |entries| {
      assert entries[..i + 1][..i] == entries[..i];
      TagAllTraps(s, entries, i + 1);
    } else {
      assert entries[..i] == entries;
    }
  }

  class Assets {
    var assets: seq<Record>
    var files: map<Filename, nat>
    var buffer: seq<Blob>
    var colors: seq<Color>
    var stockColors: seq<Color>

    ghost function Contents(): Store
      reads this
    {
      Store(assets, files)
    }

    constructor (state: State)
      ensures PutAll(EMPTY, state.assets) == Value(Contents()) && buffer == []
      ensures colors == state.colors && stockColors == state.stockColors
    {
      assets, files, buffer := [], map[], [];
      colors, stockColors := state.colors, state.stockColors;
      new;
      PutAllNeverTraps(state.assets);
      var r := Restore(state);
    }

    method PutAsset(record: Record) returns (r: Outcome<()>)
      modifies this`assets, this`files
      ensures r.Value? <==> Put(old(Contents()), record).Value?
      ensures Contents() == if r.Value? then Put(old(Contents()), record).value else old(Contents())
    {
      if record.meta.filename in files {
        var i := files[record.meta.filename];
        if i >= |assets| {
          return Trap;
        }
        assets := assets[i := record];
      } else {
        files := files[record.meta.filename := |assets|];
        assets := assets + [record];
      }
      r := Value(());
    }

    method Restore(backup: State) returns (r: Outcome<()>)
      modifies this`assets, this`files, this`colors
      ensures r.Value? <==> PutAll(old(Contents()), backup.assets).Value?
      ensures Contents() == if r.Value? then PutAll(old(Contents()), backup.assets).value else old(Contents())
      ensures colors == if r.Value? then backup.colors else old(colors)
    {
      var undo := (assets, files);
      for i := 0 to |backup.assets|
        invariant PutAll(old(Contents()), backup.assets[..i]) == Value(Contents())
        invariant colors == old(colors)
      {
        PutAllNext(old(Contents()), backup.assets, i);
        var put := PutAsset(backup.assets[i]);
        if put.Trap? {
          PutAllTraps(old(Contents()), backup.assets, i + 1);
          assets, files := undo.0, undo.1;
          return Trap;
        }
      }
      assert backup.assets[..|backup.assets|] == backup.assets;
      colors := backup.colors;
      r := Value(());
    }

    method Backup() returns (state: State)
      ensures state == State(assets, colors, stockColors)
    {
      state := State(assets, colors, stockColors);
    }

    method GetAssetByName(filename: Filename) returns (r: Outcome<Option<Record>>)
      ensures r == Lookup(Contents(), filename)
    {
      if filename !in files {
        return Value(None);
      }
      var index := files[filename];
      if index >= |assets| {
        return Trap;
      }
      r := Value(Some(assets[index]));
    }

    method Upload(admin: bool, bytes: seq<Blob>) returns (r: Outcome<()>)
      modifies this`buffer
      ensures r.Value? <==> admin
      ensures buffer == if admin then old(buffer) + bytes else old(buffer)
    {
      if !admin {
        return Trap;
      }
      for i := 0 to |bytes|
        invariant buffer == old(buffer) + bytes[..i]
      {
        buffer := buffer + [bytes[i]];
      }
      assert bytes[..|bytes|] == bytes;
      r := Value(());
    }

    /** The asset gets everything uploaded since the last one, and the buffer is empty again. */
    method UploadFinalize(admin: bool, contentType: string, meta: Meta) returns (r: Outcome<()>)
      modifies this`assets, this`files, this`buffer
      ensures r.Value? <==> admin && Put(old(Contents()), Record(Asset(contentType, old(buffer)), meta)).Value?
      ensures r.Value? ==>
        && Value(Contents()) == Apply(old(Contents()), Uploaded(Record(Asset(contentType, old(buffer)), meta)))
        && buffer == []
      ensures r.Trap? ==> Contents() == old(Contents()) && buffer == old(buffer)
    {
      if !admin {
        return Trap;
      }
      r := PutAsset(Record(Asset(contentType, buffer), meta));
      if r.Value? {
        buffer := [];
      }
    }

    method UploadClear(admin: bool) returns (r: Outcome<()>)
      modifies this`buffer
      ensures r.Value? <==> admin
      ensures buffer == if admin then [] else old(buffer)
    {
      if !admin {
        return Trap;
      }
      buffer := [];
      r := Value(());
    }

    method Purge(admin: bool, confirm: string, tag: Option<Tag>) returns (r: Outcome<Result<(), string>>)
      modifies this`assets, this`files
      ensures r == if !admin then Trap else if confirm != CONFIRMATION then Value(Err(UNCONFIRMED)) else Value(Ok(()))
      ensures Contents() ==
        if r != Value(Ok(())) then old(Contents())
        else if tag.Some? then PurgeTag(old(Contents()), tag.value)
        else EMPTY
    {
      if !admin {
        return Trap;
      }
      if confirm != CONFIRMATION {
        return Value(Err(UNCONFIRMED));
      }
      match tag {
        case Some(t) =>
          FilterSelf(t);
        case None =>
          assets := [];
          var keys := files.Keys;
          while keys != {}
            invariant files.Keys <= keys && assets == []
            decreases |keys|
          {
            var key :| key in keys;
            files := files - {key};
            keys := keys - {key};
          }
          assert files == map[];
      }
      r := Value(Ok(()));
    }

    /** Keep the records without the tag, and delete the index entry of every one kept. */
    method FilterSelf(tag: Tag)
      modifies this`assets, this`files
      ensures Contents() == PurgeTag(old(Contents()), tag)
    {
      var kept := [];
      for i := 0 to |assets|
        invariant assets == old(assets)
        invariant kept == Kept(assets[..i], tag)
        invariant files == old(files) - Names(kept)
      {
        assert assets[..i + 1][..i] == assets[..i];
        if !HasTag(assets[i], tag) {
          ghost var before := Names(kept);
          kept := kept + [assets[i]];
          files := files - {assets[i].meta.filename};
          assert Names(kept) == before + {assets[i].meta.filename};
        }
      }
      assert assets[..|assets|] == assets;
      assets := kept;
    }

    method Delete(admin: bool, filename: Filename) returns (r: Outcome<()>)
      modifies this`assets, this`files
      ensures r.Value? <==> admin
      ensures Contents() == if admin then AssetIndex.Delete(old(Contents()), filename) else old(Contents())
    {
      if !admin {
        return Trap;
      }
      files := files - {filename};
      var i := 0;
      while i < |assets|
        invariant i <= FirstNamed(assets, filename)
        invariant assets == old(assets) && files == old(files) - {filename}
      {
        if assets[i].meta.filename == filename {
          assets := assets[i := Blank(filename)];
          break;
        }
        i := i + 1;
      }
      r := Value(());
    }

    method Tag(admin: bool, entries: seq<(Filename, seq<Tag>)>) returns (r: Outcome<()>)
      modifies this`assets, this`files
      ensures r.Value? <==> admin && TagAll(old(Contents()), entries).Value?
      ensures Contents() == if r.Value? then TagAll(old(Contents()), entries).value else old(Contents())
    {
      if !admin {
        return Trap;
      }
      var undo := (assets, files);
      for i := 0 to |entries|
        invariant TagAll(old(Contents()), entries[..i]) == Value(Contents())
      {
        TagAllNext(old(Contents()), entries, i);
        var (file, tags) := entries[i];
        var found := GetAssetByName(file);
        var put := Value(());
        if found.Trap? {
          put := Trap;
        } else if found.value.Some? {
          put := PutAsset(Retagged(found.value.value, tags));
        }
        if put.Trap? {
          TagAllTraps(old(Contents()), entries, i + 1);
          assets, files := undo.0, undo.1;
          return Trap;
        }
      }
      assert entries[..|entries|] == entries;
      r := Value(());
    }
  }
}
