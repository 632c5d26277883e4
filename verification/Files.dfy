/** Copies of several files: the updates they are announced by (pkg/clipboard/eventful/files.go), and the batch
    they arrive as. */
module Files {
  import opened Wrappers
  import opened Machine
  import opened Domain
  import opened Batch
  import opened Order
  import opened Node
  import opened UriList
  import L = Lines

  /** `binary.LittleEndian.AppendUint64` on nothing. */
  function LittleEndian(n: Uint64, width: nat): Bytes {
    if width == 0 then [] else [n % 0x100] + LittleEndian(n / 0x100, width - 1)
  }

  /** The bytes a file is hashed by. */
  function Fingerprint(file: FileInfo): Bytes {
    file.path + LittleEndian(file.size, 8) + LittleEndian(file.modTime, 8)
  }

  function Fingerprints(files: seq<FileInfo>): Bytes {
    if files == [] then [] else Fingerprints(files[..|files| - 1]) + Fingerprint(files[|files| - 1])
  }

  /** The id of the batch: the digest of all fingerprints without its top bit, so never negative. */
  function BatchIDOf(xxhash: Bytes -> Uint64, files: seq<FileInfo>): Uint64 {
    xxhash(Fingerprints(files)) % TWO63
  }

  // What a fingerprint tells apart.

  lemma {:induction false} LittleEndianTellsApart(n: Uint64, m: Uint64, width: nat)
    requires n < Pow256(width) && m < Pow256(width)
    ensures |LittleEndian(n, width)| == width
    ensures LittleEndian(n, width) == LittleEndian(m, width) <==> n == m
  {
    if 0 < width {
      LittleEndianTellsApart(n / 0x100, m / 0x100, width - 1);
      var ns, ms := LittleEndian(n, width), LittleEndian(m, width);
      assert ns[0] == n % 0x100 && ms[0] == m % 0x100;
      assert ns[1..] == LittleEndian(n / 0x100, width - 1) && ms[1..] == LittleEndian(m / 0x100, width - 1);
    }
  }

  function Pow256(k: nat): nat {
    if k == 0 then 1 else 0x100 * Pow256(k - 1)
  }

  lemma EightBytesAreEnough(n: Uint64, m: Uint64)
    ensures |LittleEndian(n, 8)| == 8 && (LittleEndian(n, 8) == LittleEndian(m, 8) <==> n == m)
  {
    assert Pow256(8) == 0x1_0000_0000_0000_0000 by {
      assert Pow256(4) == 0x1_0000_0000;
    }
    LittleEndianTellsApart(n, m, 8);
  }

  /** Files that differ in path, size or time differ in their fingerprints: the last sixteen bytes are size and time. */
  lemma FingerprintTellsApart(f: FileInfo, g: FileInfo)
    ensures Fingerprint(f) == Fingerprint(g) <==> f == g
    ensures |Fingerprint(f)| == |f.path| + 16
  {
    EightBytesAreEnough(f.size, g.size);
    EightBytesAreEnough(f.modTime, g.modTime);
    hide LittleEndian;
    if Fingerprint(f) == Fingerprint(g) {
      var n := |f.path|;
      FingerprintParts(f);
      FingerprintParts(g);
    }
  }

  lemma FingerprintParts(f: FileInfo)
    ensures
      var s, n := Fingerprint(f), |f.path|;
      && |s| == n + 16 && s[..n] == f.path
      && s[n..n + 8] == LittleEndian(f.size, 8) && s[n + 8..] == LittleEndian(f.modTime, 8)
  {
    EightBytesAreEnough(f.size, f.modTime);
    EightBytesAreEnough(f.modTime, f.size);
    hide LittleEndian;
  }

  /** What the id of a batch is made of tells two copies of the same paths apart if any file has changed. */
  lemma {:induction false} FingerprintsTellApart(files: seq<FileInfo>, others: seq<FileInfo>)
    requires |files| == |others| && forall i :: 0 <= i < |files| ==> |files[i].path| == |others[i].path|
    ensures Fingerprints(files) == Fingerprints(others) <==> files == others
  {
    hide Fingerprint;
    if files != [] {
      var n := |files| - 1;
      FingerprintsTellApart(files[..n], others[..n]);
      FingerprintTellsApart(files[n], others[n]);
      FingerprintTellsApart(others[n], files[n]);
      assert files == files[..n] + [files[n]] && others == others[..n] + [others[n]];
      var front, back := Fingerprints(files[..n]), Fingerprint(files[n]);
      var front', back' := Fingerprints(others[..n]), Fingerprint(others[n]);
      if front + back == front' + back' {
        SameEnds(front, back, front', back');
      }
    }
  }

  lemma SameEnds(a: Bytes, x: Bytes, b: Bytes, y: Bytes)
    requires a + x == b + y && |x| == |y|
    ensures a == b && x == y
  {
    assert |a| == |b|;
    assert a == (a + x)[..|a|] && b == (b + y)[..|b|] && x == (a + x)[|a|..] && y == (b + y)[|b|..];
  }

  function UpdateOf(xxhash: Bytes -> Uint64, files: seq<FileInfo>, i: nat): Update
    requires i < |files|
  {
    Update(files[i].path, files[i].size, MIME_PATH, xxhash(Fingerprint(files[i])), BatchIDOf(xxhash, files),
           |files| % TWO32)
  }

  /** Two updates have the same hash just if they are for the same file in the same state, unless the digest takes one
      byte string for the other. */
  lemma HashesTellFilesApart(xxhash: Bytes -> Uint64, files: seq<FileInfo>, i: nat, others: seq<FileInfo>, j: nat)
    requires i < |files| && j < |others|
    requires var x, y := Fingerprint(files[i]), Fingerprint(others[j]); x != y ==> xxhash(x) != xxhash(y)
    ensures UpdateOf(xxhash, files, i).hash == UpdateOf(xxhash, others, j).hash <==> files[i] == others[j]
  {
    FingerprintTellsApart(files[i], others[j]);
    hide Fingerprint, BatchIDOf;
  }

  /** So with the batch ids of two copies of the same paths. */
  lemma BatchIdsTellCopiesApart(xxhash: Bytes -> Uint64, files: seq<FileInfo>, others: seq<FileInfo>)
    requires |files| == |others| && forall i :: 0 <= i < |files| ==> |files[i].path| == |others[i].path|
    requires var x, y := Fingerprints(files), Fingerprints(others); x != y ==> xxhash(x) % TWO63 != xxhash(y) % TWO63
    ensures BatchIDOf(xxhash, files) == BatchIDOf(xxhash, others) <==> files == others
  {
    FingerprintsTellApart(files, others);
    hide Fingerprints;
  }

  /** The message for file `i`: its path, from which it is read when it is requested, its name and size, and the batch
      of so many files. */
  lemma MessageIsOfFile(xxhash: Bytes -> Uint64, files: seq<FileInfo>, i: nat, id: MessageID, dir: Bytes, name: Bytes)
    requires i < |files| && name != [] && SLASH !in name && files[i].path == dir + [47] + name
    requires |files[i].path| < TWO64
    ensures
      var m := MessageFromUpdate(UpdateOf(xxhash, files, i), id);
      && m.id == id && m.mime == MIME_PATH && m.data == files[i].path && m.name == name && m.length == files[i].size
      && m.hash == xxhash(Fingerprint(files[i])) && m.batchTotal == |files| % TWO32
      && m.batchID == BatchIDOf(xxhash, files)
  {
    FileIsNamedByItsPath(UpdateOf(xxhash, files, i), id, dir, name);
    hide Fingerprint, MessageFromUpdate;
  }

  /** One update a file, all of one batch of so many files; the buffer that is used again leaves nothing behind. */
  method UpdatesFromFileInfo(xxhash: Bytes -> Uint64, files: seq<FileInfo>)
    returns (updates: seq<Update>, batchHash: Uint64)
    ensures |updates| == |files| && forall i :: 0 <= i < |files| ==> updates[i] == UpdateOf(xxhash, files, i)
    ensures batchHash == xxhash(Fingerprints(files))
  {
    updates := [];
    var buf: Bytes := [];
    for i := 0 to |files|
      invariant buf == Fingerprints(files[..i])
    {
      assert files[..i + 1][..i] == files[..i];
      ghost var before := buf;
      buf := buf + files[i].path;
      buf := buf + LittleEndian(files[i].size, 8);
      buf := buf + LittleEndian(files[i].modTime, 8);
      assert buf == before + Fingerprint(files[i]);
    }
    assert files[..|files|] == files;
    batchHash := xxhash(buf);
    var batchID := batchHash % TWO63;
    var batchTotal := |files| % TWO32;
    buf := [];
    for i := 0 to |files|
      invariant buf == [] && |updates| == i
      invariant forall j :: 0 <= j < i ==> updates[j] == UpdateOf(xxhash, files, j)
    {
      buf := buf + files[i].path;
      buf := buf + LittleEndian(files[i].size, 8);
      buf := buf + LittleEndian(files[i].modTime, 8);
      assert buf == Fingerprint(files[i]);
      updates := updates + [Update(files[i].path, files[i].size, MIME_PATH, xxhash(buf), batchID, batchTotal)];
      buf := [];
    }
  }

  // ---------------------------------------------------------------- from a copy to a list of files elsewhere

  /** A copy of several files and where another node stores them, file by file. */
  datatype Copy = Copy(files: seq<FileInfo>, ids: seq<MessageID>, paths: seq<Bytes>)

  ghost predicate IsCopy(c: Copy) {
    && 1 <= |c.files| < TWO32 && |c.ids| == |c.files| == |c.paths|
    && (forall i, j :: 0 <= i < j < |c.ids| ==> c.ids[i] != c.ids[j])
    && (forall i :: 0 <= i < |c.files| ==> |c.files[i].path| < TWO64)
  }

  /** The message for a file as it is added to the batch there, its data being the path it is stored at. */
  function Arrived(xxhash: Bytes -> Uint64, c: Copy, i: nat): Message
    requires i < |c.files| && i < |c.ids| && i < |c.paths| && |c.files[i].path| < TWO64
  {
    var sent := MessageFromUpdate(UpdateOf(xxhash, c.files, i), c.ids[i]);
    AsReceived(Event(0, 0, sent)).payload.(data := c.paths[i])
  }

  function Parts(ids: seq<MessageID>, paths: seq<Bytes>): map<MessageID, Bytes>
    requires |ids| == |paths|
  {
    if ids == [] then map[] else Parts(ids[..|ids| - 1], paths[..|ids| - 1])[ids[|ids| - 1] := paths[|ids| - 1]]
  }

  lemma {:induction false} PartsOf(ids: seq<MessageID>, paths: seq<Bytes>)
    requires |ids| == |paths| && forall i, j :: 0 <= i < j < |ids| ==> ids[i] != ids[j]
    ensures |Parts(ids, paths)| == |ids|
    ensures forall k :: k in Parts(ids, paths) <==> k in ids
    ensures forall i :: 0 <= i < |ids| ==> ids[i] in Parts(ids, paths) && Parts(ids, paths)[ids[i]] == paths[i]
  {
    if ids != [] {
      var n := |ids| - 1;
      PartsOf(ids[..n], paths[..n]);
      var before := Parts(ids[..n], paths[..n]);
      assert ids[n] !in ids[..n];
      assert Parts(ids, paths) == before[ids[n] := paths[n]];
      hide Parts;
      assert before[ids[n] := paths[n]].Keys == before.Keys + {ids[n]};
      assert |before.Keys| == n;
      forall i | 0 <= i < |ids|
        ensures ids[i] in Parts(ids, paths) && Parts(ids, paths)[ids[i]] == paths[i]
      {
        if i < n {
          assert ids[..n][i] == ids[i] && paths[..n][i] == paths[i];
        }
      }
    }
  }

  lemma ArrivedIsPart(xxhash: Bytes -> Uint64, c: Copy, i: nat)
    requires IsCopy(c) && i < |c.files|
    ensures var m := Arrived(xxhash, c, i);
      m.batchTotal == |c.files| && m.id == c.ids[i] && m.data == c.paths[i] && m.batchID == BatchIDOf(xxhash, c.files)
  {
  }

  /** The files of a copy fill one batch, in whatever order and however often they arrive: nothing is ready until
      each has been there, and then the batch is their paths, sorted, a path a line. */
  lemma FilesArriveAsOneBatch(xxhash: Bytes -> Uint64, c: Copy, ops: seq<Op>, last: Message)
    requires IsCopy(c) && last.batchID == BatchIDOf(xxhash, c.files) && ExpireOp(last.batchID) !in ops
    requires forall m <- AddsTo(ops, last.batchID) + [last] ::
      exists i :: 0 <= i < |c.files| && m == Arrived(xxhash, c, i)
    requires Items(AddsTo(ops, last.batchID)) != Parts(c.ids, c.paths)
    ensures Ready(Run(ops), last) ==
      if Items(AddsTo(ops, last.batchID) + [last]) == Parts(c.ids, c.paths) then Some(Joined(Parts(c.ids, c.paths)))
      else None
  {
    hide Ready, Joined, Arrived, Items, AddsTo;
    var parts := Parts(c.ids, c.paths);
    var adds := AddsTo(ops, last.batchID) + [last];
    PartsOf(c.ids, c.paths);
    forall m | m in adds
      ensures m.batchTotal == |parts| && m.id in parts && m.data == parts[m.id]
    {
      var i :| 0 <= i < |c.files| && m == Arrived(xxhash, c, i);
      ArrivedIsPart(xxhash, c, i);
    }
    BatchDelivery(ops, last, parts);
  }

  lemma ListedAreItems(items: map<MessageID, Bytes>)
    ensures forall part <- Sort(Listing(items)) :: part != [] && part in items.Values
  {
    ListingHolds(items);
    forall part | part in Sort(Listing(items)) ensures part in Listing(items) {
      assert part in multiset(Sort(Listing(items)));
    }
  }

  lemma {:induction false} ListingHolds(items: map<MessageID, Bytes>)
    ensures forall part <- Listing(items) :: part != [] && part in items.Values
    decreases |items|
  {
    if items != map[] {
      var k :| k in items && Listing(items) == Part(items[k]) + Listing(items - {k});
      SizeWithout(items, k);
      ListingHolds(items - {k});
      forall part | part in Listing(items) ensures part != [] && part in items.Values {
        if part in Part(items[k]) {
          assert part == items[k];
        } else {
          var c :| c in items - {k} && (items - {k})[c] == part;
          assert items[c] == part;
        }
      }
    }
  }

  /** The batch, made a list of URIs and read by a program there, is the files at those paths in sorted order. */
  lemma BatchIsReadAsFiles(w: World, items: map<MessageID, Bytes>, limit: int)
    requires forall k :: k in items && items[k] != [] ==> IsPlain(w, items[k]) && IsFile(w, items[k])
    ensures AllPlainFiles(w, Sort(Listing(items)))
    ensures Limited(InfosOf(w, L.Split(Formatted(Joined(items)))), limit)
         == Limited(Infos(w, Sort(Listing(items))), limit)
  {
    ListedAreItems(items);
    var paths := Sort(Listing(items));
    forall i | 0 <= i < |paths| ensures IsPlain(w, paths[i]) && IsFile(w, paths[i]) {
      assert paths[i] in paths;
      var k :| k in items && items[k] == paths[i];
    }
    PathsComeThrough(w, paths, limit);
  }
}
