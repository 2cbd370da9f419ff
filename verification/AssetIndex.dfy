/** The asset buffer and its filename index, and the plain map they stand for. */
module AssetIndex {
  import opened Wrappers

  type Filename = string
  type Tag = string
  type Blob = seq<bv8>

  datatype Asset = Asset(contentType: string, payload: seq<Blob>)
  datatype Meta = Meta(tags: seq<Tag>, filename: Filename, name: string, description: string)
  datatype Record = Record(asset: Asset, meta: Meta)

  datatype Store = Store(records: seq<Record>, files: map<Filename, nat>)

  const EMPTY := Store([], map[])

  predicate HasTag(r: Record, tag: Tag) {
    tag in r.meta.tags
  }

  function Blank(f: Filename): Record {
    Record(Asset("", []), Meta([], f, "", ""))
  }

  // ---- What each operation does to the buffer and the index ----

  /** Reading past the end of the buffer traps. */
  function Lookup(s: Store, f: Filename): Outcome<Option<Record>> {
    if f !in s.files then Value(None)
    else if s.files[f] < |s.records| then Value(Some(s.records[s.files[f]]))
    else Trap
  }

  /** Replace the record the index names, or append one and index it. */
  function Put(s: Store, r: Record): Outcome<Store> {
    var f := r.meta.filename;
    if f !in s.files then Value(Store(s.records + [r], s.files[f := |s.records|]))
    else if s.files[f] < |s.records| then Value(Store(s.records[s.files[f] := r], s.files))
    else Trap
  }

  function PutAll(s: Store, rs: seq<Record>): Outcome<Store>
    decreases |rs|
  {
    if rs == [] then Value(s)
    else
      var before :- PutAll(s, rs[..|rs| - 1]);
      Put(before, rs[|rs| - 1])
  }

  function Retagged(r: Record, tags: seq<Tag>): Record {
    Record(r.asset, r.meta.(tags := tags))
  }

  function TagOne(s: Store, f: Filename, tags: seq<Tag>): Outcome<Store> {
    var found :- Lookup(s, f);
    if found.Some? then Put(s, Retagged(found.value, tags)) else Value(s)
  }

  function TagAll(s: Store, entries: seq<(Filename, seq<Tag>)>): Outcome<Store>
    decreases |entries|
  {
    if entries == [] then Value(s)
    else
      var before :- TagAll(s, entries[..|entries| - 1]);
      var entry := entries[|entries| - 1];
      TagOne(before, entry.0, entry.1)
  }

  /** The first record with the filename, or the length of the buffer. */
  function FirstNamed(rs: seq<Record>, f: Filename): (k: nat)
    ensures k <= |rs|
    ensures forall i :: 0 <= i < k ==> rs[i].meta.filename != f
    ensures k < |rs| ==> rs[k].meta.filename == f
  {
    if rs == [] || rs[0].meta.filename == f then 0 else 1 + FirstNamed(rs[1..], f)
  }

  /** Forget the filename, and blank out the first record that carries it. */
  function Delete(s: Store, f: Filename): Store {
    var k := FirstNamed(s.records, f);
    Store(if k < |s.records| then s.records[k := Blank(f)] else s.records, s.files - {f})
  }

  function Kept(rs: seq<Record>, tag: Tag): (kept: seq<Record>)
    ensures forall r :: r in kept <==> r in rs && !HasTag(r, tag)
    decreases |rs|
  {
    if rs == [] then []
    else
      var last := rs[|rs| - 1];
      Kept(rs[..|rs| - 1], tag) + if HasTag(last, tag) then [] else [last]
  }

  function Names(rs: seq<Record>): (names: set<Filename>)
    ensures forall f :: f in names <==> exists r :: r in rs && r.meta.filename == f
  {
    set r | r in rs :: r.meta.filename
  }

  /** Drop the records with the tag, and forget the filenames of the ones without it. */
  function PurgeTag(s: Store, tag: Tag): Store {
    var kept := Kept(s.records, tag);
    Store(kept, s.files - Names(kept))
  }

  // ---- Runs ----

  datatype Op =
    | Uploaded(record: Record)
    | Restored(records: seq<Record>)
    | TagsSet(entries: seq<(Filename, seq<Tag>)>)
    | Deleted(filename: Filename)
    | Purged

  function Apply(s: Store, op: Op): Outcome<Store> {
    match op
    case Uploaded(r) => Put(s, r)
    case Restored(rs) => PutAll(s, rs)
    case TagsSet(entries) => TagAll(s, entries)
    case Deleted(f) => Value(Delete(s, f))
    case Purged => Value(EMPTY)
  }

  function Run(ops: seq<Op>): Outcome<Store>
    decreases |ops|
  {
    if ops == [] then Value(EMPTY)
    else
      var before :- Run(ops[..|ops| - 1]);
      Apply(before, ops[|ops| - 1])
  }

  // ---- What a filename should give: the record last put under it, if it was not removed since ----

  function LastNamed(rs: seq<Record>, f: Filename, otherwise: Option<Record>): Option<Record>
    decreases |rs|
  {
    if rs == [] then otherwise
    else if rs[|rs| - 1].meta.filename == f then Some(rs[|rs| - 1])
    else LastNamed(rs[..|rs| - 1], f, otherwise)
  }

  /** Of several entries for one filename the last decides. */
  function LastTags(entries: seq<(Filename, seq<Tag>)>, f: Filename, r: Record): Record
    decreases |entries|
  {
    if entries == [] then r
    else if entries[|entries| - 1].0 == f then Retagged(r, entries[|entries| - 1].1)
    else LastTags(entries[..|entries| - 1], f, r)
  }

  function Latest(ops: seq<Op>, f: Filename): Option<Record>
    decreases |ops|
  {
    if ops == [] then None
    else
      var before := Latest(ops[..|ops| - 1], f);
      match ops[|ops| - 1]
      case Uploaded(r) => if r.meta.filename == f then Some(r) else before
      case Restored(rs) => LastNamed(rs, f, before)
      case TagsSet(entries) => if before.Some? then Some(LastTags(entries, f, before.value)) else None
      case Deleted(g) => if g == f then None else before
      case Purged => None
  }

  // ---- The index invariant ----

  /** The entry points at a record of that name. */
  predicate Points(rs: seq<Record>, f: Filename, i: nat) {
    i < |rs| && rs[i].meta.filename == f
  }

  /** And no later record has it. */
  predicate IsLast(rs: seq<Record>, f: Filename, i: nat) {
    Points(rs, f, i) && forall j :: i < j < |rs| ==> rs[j].meta.filename != f
  }

  predicate Indexed(s: Store) {
    forall f :: f in s.files ==> Points(s.records, f, s.files[f])
  }

  predicate Sound(s: Store) {
    forall f :: f in s.files ==> IsLast(s.records, f, s.files[f])
  }

  lemma PutKeeps(s: Store, r: Record, f: Filename)
    requires Sound(s)
    ensures Put(s, r).Value? && Sound(Put(s, r).value)
    ensures Lookup(s, f).Value?
    ensures Lookup(Put(s, r).value, f) == if r.meta.filename == f then Value(Some(r)) else Lookup(s, f)
  {
    var g := r.meta.filename;
    if g in s.files {
      assert IsLast(s.records, g, s.files[g]);
    }
    var after := Put(s, r).value;
    forall h | h in after.files
      ensures IsLast(after.records, h, after.files[h])
    {
      assert h in s.files ==> IsLast(s.records, h, s.files[h]);
    }
    assert f in s.files ==> IsLast(s.records, f, s.files[f]);
  }

  lemma DeleteKeeps(s: Store, g: Filename, f: Filename)
    requires Sound(s)
    ensures Sound(Delete(s, g))
    ensures Lookup(Delete(s, g), f) == if g == f then Value(None) else Lookup(s, f)
  {
    var after := Delete(s, g);
    forall h | h in after.files
      ensures IsLast(after.records, h, after.files[h])
    {
      assert IsLast(s.records, h, s.files[h]);
    }
    assert f in s.files ==> IsLast(s.records, f, s.files[f]);
  }

  lemma {:induction false} PutAllKeeps(s: Store, rs: seq<Record>, f: Filename)
    requires Sound(s)
    ensures PutAll(s, rs).Value? && Sound(PutAll(s, rs).value) && Lookup(s, f).Value?
    ensures Lookup(PutAll(s, rs).value, f) == Value(LastNamed(rs, f, Lookup(s, f).value))
    decreases |rs|
  {
    if rs == [] {
      PutKeeps(s, Blank(f), f);
    } else {
      PutAllKeeps(s, rs[..|rs| - 1], f);
      PutKeeps(PutAll(s, rs[..|rs| - 1]).value, rs[|rs| - 1], f);
    }
  }

  lemma TagOneKeeps(s: Store, g: Filename, tags: seq<Tag>, f: Filename)
    requires Sound(s)
    ensures TagOne(s, g, tags).Value? && Sound(TagOne(s, g, tags).value) && Lookup(s, f).Value?
    ensures Lookup(TagOne(s, g, tags).value, f) ==
      if g == f && Lookup(s, f).value.Some? then Value(Some(Retagged(Lookup(s, f).value.value, tags)))
      else Lookup(s, f)
  {
    PutKeeps(s, Blank(f), f);
    if g in s.files {
      assert IsLast(s.records, g, s.files[g]);
      PutKeeps(s, Retagged(s.records[s.files[g]], tags), f);
    }
  }

  lemma {:induction false} TagAllKeeps(s: Store, entries: seq<(Filename, seq<Tag>)>, f: Filename)
    requires Sound(s)
    ensures TagAll(s, entries).Value? && Sound(TagAll(s, entries).value) && Lookup(s, f).Value?
    ensures Lookup(TagAll(s, entries).value, f) ==
      if Lookup(s, f).value.Some? then Value(Some(LastTags(entries, f, Lookup(s, f).value.value))) else Value(None)
    decreases |entries|
  {
    if entries == [] {
      PutKeeps(s, Blank(f), f);
    } else {
      var (init, last) := (entries[..|entries| - 1], entries[|entries| - 1]);
      TagAllKeeps(s, init, f);
      TagOneKeeps(TagAll(s, init).value, last.0, last.1, f);
      if last.0 == f && Lookup(s, f).value.Some? {
        OnlyTagsChange(init, f, Lookup(s, f).value.value, last.1);
      }
    }
  }

  lemma {:induction false} OnlyTagsChange(entries: seq<(Filename, seq<Tag>)>, f: Filename, r: Record, tags: seq<Tag>)
    ensures Retagged(LastTags(entries, f, r), tags) == Retagged(r, tags)
    decreases |entries|
  {
    if entries != [] {
      OnlyTagsChange(entries[..|entries| - 1], f, r, tags);
    }
  }

  /**
   * After any uploads, restores, taggings, deletions and full purges, no operation has trapped, every
   * index entry points at the last record of its name, and a filename gives the record last put under
   * it, or nothing when it was removed since.
   */
  lemma {:induction false} LookupIsLatest(ops: seq<Op>, f: Filename)
    ensures Run(ops).Value? && Sound(Run(ops).value)
    ensures Lookup(Run(ops).value, f) == Value(Latest(ops, f))
    decreases |ops|
  {
    if ops != [] {
      var (init, op) := (ops[..|ops| - 1], ops[|ops| - 1]);
      LookupIsLatest(init, f);
      var before := Run(init).value;
      match op
      case Uploaded(r) => PutKeeps(before, r, f);
      case Restored(rs) => PutAllKeeps(before, rs, f);
      case TagsSet(entries) => TagAllKeeps(before, entries, f);
      case Deleted(g) => DeleteKeeps(before, g, f);
      case Purged =>
    }
  }

  // ---- Backup and restore ----

  lemma {:induction false} LastNamedIsLast(rs: seq<Record>, f: Filename)
    ensures LastNamed(rs, f, None).None? <==> f !in Names(rs)
    ensures forall i: nat :: IsLast(rs, f, i) ==> LastNamed(rs, f, None) == Some(rs[i])
    decreases |rs|
  {
    if rs != [] {
      var (init, last) := (rs[..|rs| - 1], rs[|rs| - 1]);
      LastNamedIsLast(init, f);
      assert rs == init + [last];
      forall i: nat | IsLast(rs, f, i)
        ensures LastNamed(rs, f, None) == Some(rs[i])
      {
        if last.meta.filename != f {
          assert IsLast(init, f, i);
        } else {
          assert !(i < |rs| - 1);
        }
      }
    }
  }

  /** A fresh canister restored from a backup serves every indexed name as before, but deleted names again. */
  lemma RestoredLookup(s: Store, f: Filename)
    requires Sound(s)
    ensures PutAll(EMPTY, s.records).Value?
    ensures f in s.files ==> Lookup(PutAll(EMPTY, s.records).value, f) == Lookup(s, f)
    ensures f !in s.files ==>
      Lookup(s, f) == Value(None) &&
      (Lookup(PutAll(EMPTY, s.records).value, f) == Value(None) <==> f !in Names(s.records))
  {
    PutAllKeeps(EMPTY, s.records, f);
    LastNamedIsLast(s.records, f);
    if f in s.files {
      assert IsLast(s.records, f, s.files[f]);
    }
  }

  ghost predicate SameLookups(s: Store, t: Store) {
    forall f :: Lookup(s, f) == Lookup(t, f)
  }

  /** Restoring a backup gives the same lookups exactly when no record is left without its index entry. */
  lemma RestoreIsFaithfulExactly(s: Store)
    requires Sound(s)
    ensures PutAll(EMPTY, s.records).Value?
    ensures SameLookups(PutAll(EMPTY, s.records).value, s) <==> Names(s.records) <= s.files.Keys
  {
    RestoredLookup(s, "");
    var t := PutAll(EMPTY, s.records).value;
    forall f
      ensures Lookup(t, f) == Lookup(s, f) <==> f in s.files || f !in Names(s.records)
    {
      RestoredLookup(s, f);
    }
    if SameLookups(t, s) {
      forall f | f in Names(s.records)
        ensures f in s.files
      {
        assert Lookup(t, f) == Lookup(s, f);
      }
    }
  }

  /** A deletion empties the record that was served exactly when no earlier record has its name. */
  lemma DeleteErasesExactly(s: Store, f: Filename)
    requires Sound(s) && f in s.files && s.records[s.files[f]] != Blank(f)
    ensures Delete(s, f).records[s.files[f]] == Blank(f) <==> FirstNamed(s.records, f) == s.files[f]
  {
    assert IsLast(s.records, f, s.files[f]);
  }

  lemma RunNext(ops: seq<Op>, op: Op)
    requires Run(ops).Value?
    ensures Run(ops + [op]) == Apply(Run(ops).value, op)
  {
    assert (ops + [op])[..|ops|] == ops;
  }

  /** A deleted record is served again from a backup exactly when the deletion did not empty it. */
  lemma DeletedComesBackExactly(s: Store, f: Filename)
    requires Sound(s) && f in s.files && s.records[s.files[f]] != Blank(f)
    ensures PutAll(EMPTY, Delete(s, f).records).Value?
    ensures Lookup(PutAll(EMPTY, Delete(s, f).records).value, f) == Lookup(s, f)
      <==> FirstNamed(s.records, f) != s.files[f]
  {
    var rs := Delete(s, f).records;
    assert IsLast(s.records, f, s.files[f]);
    assert IsLast(rs, f, s.files[f]);
    PutAllKeeps(EMPTY, rs, f);
    LastNamedIsLast(rs, f);
    DeleteErasesExactly(s, f);
  }

  lemma UploadOnce(r: Record)
    ensures Run([Uploaded(r)]) == Value(Store([r], map[r.meta.filename := 0]))
  {
    RunNext([], Uploaded(r));
    assert EMPTY.records + [r] == [r];
  }

  lemma UploadThenDelete(r: Record)
    ensures Run([Uploaded(r)] + [Deleted(r.meta.filename)]) == Value(Store([Blank(r.meta.filename)], map[]))
  {
    var f := r.meta.filename;
    UploadOnce(r);
    RunNext([Uploaded(r)], Deleted(f));
    assert [r][0 := Blank(f)] == [Blank(f)];
    assert map[f := 0] - {f} == map[];
  }

  /** That happens: upload a name, delete it, and upload it again. */
  lemma SecondUploadIsNotFirst(first: Record, second: Record)
    requires first.meta.filename == second.meta.filename
    ensures var f := first.meta.filename;
      Run([Uploaded(first)] + [Deleted(f)] + [Uploaded(second)]) == Value(Store([Blank(f), second], map[f := 1]))
    ensures FirstNamed([Blank(first.meta.filename), second], first.meta.filename) == 0
  {
    var f := first.meta.filename;
    UploadThenDelete(first);
    RunNext([Uploaded(first)] + [Deleted(f)], Uploaded(second));
    assert [Blank(f)] + [second] == [Blank(f), second];
  }

  // ---- Purging by tag ----

  /** None of the records that a purge by tag keeps can be looked up afterwards. */
  lemma KeptAreLost(s: Store, tag: Tag, r: Record)
    requires r in PurgeTag(s, tag).records
    ensures Lookup(PurgeTag(s, tag), r.meta.filename) == Value(None)
  {
    assert r.meta.filename in Names(Kept(s.records, tag));
  }

  /** The name has a record without the tag. */
  predicate Survives(s: Store, tag: Tag, f: Filename) {
    exists r :: r in s.records && r.meta.filename == f && !HasTag(r, tag)
  }

  /** A purge by tag leaves an entry in the index exactly for the names it removes altogether. */
  lemma PurgeTagIndex(s: Store, tag: Tag, f: Filename)
    ensures f in PurgeTag(s, tag).files <==> f in s.files && !Survives(s, tag, f)
    ensures f in PurgeTag(s, tag).files ==> !Points(PurgeTag(s, tag).records, f, PurgeTag(s, tag).files[f])
  {
    var kept := Kept(s.records, tag);
    if f in Names(kept) {
      var r :| r in kept && r.meta.filename == f;
      assert r in s.records && !HasTag(r, tag);
    }
    if Survives(s, tag, f) {
      var r :| r in s.records && r.meta.filename == f && !HasTag(r, tag);
      assert r in kept;
    }
  }

  /** It keeps the index right exactly when every indexed name survives; then the index is left empty. */
  lemma PurgeTagKeepsIndexExactly(s: Store, tag: Tag)
    ensures Indexed(PurgeTag(s, tag)) <==> forall f :: f in s.files ==> Survives(s, tag, f)
    ensures Indexed(PurgeTag(s, tag)) <==> PurgeTag(s, tag).files == map[]
  {
    var after := PurgeTag(s, tag);
    forall f
      ensures f in after.files <==> f in s.files && !Survives(s, tag, f)
      ensures f in after.files ==> !Points(after.records, f, after.files[f])
    {
      PurgeTagIndex(s, tag, f);
    }
    if after.files != map[] {
      var f :| f in after.files;
      assert !Points(after.records, f, after.files[f]);
    }
  }

  /** Where the records without the tag stand, in order. */
  function UntaggedPositions(rs: seq<Record>, tag: Tag): (p: seq<nat>)
    ensures forall k :: 0 <= k < |p| ==> p[k] < |rs|
    ensures forall i, j :: 0 <= i < j < |p| ==> p[i] < p[j]
    ensures forall i :: i in p <==> 0 <= i < |rs| && tag !in rs[i].meta.tags
    decreases |rs|
  {
    if rs == [] then []
    else
      var last := |rs| - 1;
      var before := UntaggedPositions(rs[..last], tag);
      if tag in rs[last].meta.tags then before else before + [last]
  }

  /** A purge by tag removes a record exactly when the tag is one of its tags, and keeps the order. */
  lemma {:induction false} PurgeTagRemovesExactly(rs: seq<Record>, tag: Tag)
    ensures |Kept(rs, tag)| == |UntaggedPositions(rs, tag)|
    ensures forall k :: 0 <= k < |Kept(rs, tag)| ==> Kept(rs, tag)[k] == rs[UntaggedPositions(rs, tag)[k]]
    decreases |rs|
  {
    if rs != [] {
      PurgeTagRemovesExactly(rs[..|rs| - 1], tag);
    }
  }

  // ---- Tagging and deleting, written out ----

  /** After a tagging an indexed name gives its record with the new tags, and all else of it as it was. */
  lemma TaggingSetsTags(s: Store, f: Filename, tags: seq<Tag>)
    requires Sound(s) && f in s.files
    ensures TagOne(s, f, tags).Value?
    ensures var (before, after) := (Lookup(s, f), Lookup(TagOne(s, f, tags).value, f));
            && before.Value? && before.value.Some? && after.Value? && after.value.Some?
            && var (record, tagged) := (before.value.value, after.value.value);
               && tagged.meta.tags == tags && tagged.asset == record.asset
               && tagged.meta.filename == record.meta.filename
               && tagged.meta.name == record.meta.name && tagged.meta.description == record.meta.description
  {
    TagOneKeeps(s, f, tags, f);
    assert IsLast(s.records, f, s.files[f]);
  }

  /** What a deletion leaves of the first record of the name: the name. */
  lemma DeletionBlanks(s: Store, f: Filename)
    requires FirstNamed(s.records, f) < |s.records|
    ensures var blank := Delete(s, f).records[FirstNamed(s.records, f)];
            && blank.asset.contentType == "" && blank.asset.payload == []
            && blank.meta.filename == f && blank.meta.tags == []
            && blank.meta.name == "" && blank.meta.description == ""
    ensures f !in Delete(s, f).files
  {
  }
}
