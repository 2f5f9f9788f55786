/** Building and restoring backup bundles (internal/backup/bundle.go), over an abstract archive and hash. */
module BackupBundle {
  import opened Prelude

  type Bytes = seq<int>

  const VERSION := 1
  const MANIFEST_PATH := "manifest.json"
  const DB_PATH := "db.sqlite3"
  const MEDIA_PREFIX := "media/"

  datatype TarEntry = TarEntry(name: string, body: Bytes)

  datatype MediaEntry = MediaEntry(fileId: int, key: string, sha: string)

  datatype Manifest = Manifest(version: int, media: seq<MediaEntry>)

  /** JSON for manifests, and SHA-256. */
  datatype Codec = Codec(encode: Manifest -> Bytes, decode: Bytes -> Option<Manifest>, hash: Bytes -> string)

  ghost predicate Lawful(c: Codec) {
    forall m :: c.decode(c.encode(m)) == Some(m)
  }

  /** A ciphertext the manifest's hash accepts; an empty hash accepts anything. */
  predicate Accepts(c: Codec, sha: string, body: Bytes) {
    sha == "" || c.hash(body) == sha
  }

  function MediaName(key: string): string {
    MEDIA_PREFIX + key
  }

  // -------------------------------------------------------------------- building

  /** What one endpoint holds under a key. */
  type Endpoint = string -> Option<Bytes>

  ghost predicate Fetchable(c: Codec, endpoints: seq<Endpoint>, item: MediaEntry) {
    exists i :: 0 <= i < |endpoints| && endpoints[i](item.key).Some? && Accepts(c, item.sha, endpoints[i](item.key).value)
  }

  method FetchMediaCiphertext(c: Codec, endpoints: seq<Endpoint>, item: MediaEntry) returns (data: Option<Bytes>)
    ensures data.Some? <==> Fetchable(c, endpoints, item)
    ensures data.Some? ==> Accepts(c, item.sha, data.value) && exists i :: 0 <= i < |endpoints| && endpoints[i](item.key) == data
  {
    var i := 0;
    while i < |endpoints|
      invariant 0 <= i <= |endpoints|
      invariant forall j | 0 <= j < i :: !(endpoints[j](item.key).Some? && Accepts(c, item.sha, endpoints[j](item.key).value))
    {
      var got := endpoints[i](item.key);
      if got.Some? && Accepts(c, item.sha, got.value) { return got; }
      i := i + 1;
    }
    data := None;
  }

  ghost predicate IsHead(c: Codec, head: seq<TarEntry>, snapshot: Bytes, media: seq<MediaEntry>) {
    head == [TarEntry("manifest.json", c.encode(Manifest(1, media))), TarEntry("db.sqlite3", snapshot)]
  }

  ghost predicate CarriesMedia(c: Codec, entries: seq<TarEntry>, media: seq<MediaEntry>, n: nat) {
    n <= |media| && |entries| == 2 + n
    && forall i | 0 <= i < n :: entries[2 + i].name == "media/" + media[i].key && Accepts(c, media[i].sha, entries[2 + i].body)
  }

  /** The entries of a bundle: manifest, database, then one ciphertext per live file. */
  ghost predicate IsBundle(c: Codec, entries: seq<TarEntry>, snapshot: Bytes, media: seq<MediaEntry>) {
    CarriesMedia(c, entries, media, |media|) && IsHead(c, entries[..2], snapshot, media)
  }

  /** `media` is the snapshot's live files in id order. */
  method BuildBundle(c: Codec, endpoints: seq<Endpoint>, snapshot: Bytes, media: seq<MediaEntry>) returns (bundle: Option<seq<TarEntry>>)
    ensures bundle.Some? <==> forall i | 0 <= i < |media| :: Fetchable(c, endpoints, media[i])
    ensures bundle.Some? ==> IsBundle(c, bundle.value, snapshot, media)
  {
    var entries := [TarEntry(MANIFEST_PATH, c.encode(Manifest(VERSION, media)))];
    entries := entries + [TarEntry(DB_PATH, snapshot)];
    var i := 0;
    while i < |media|
      invariant 0 <= i <= |media| && CarriesMedia(c, entries, media, i) && IsHead(c, entries[..2], snapshot, media)
      invariant forall j | 0 <= j < i :: Fetchable(c, endpoints, media[j])
    {
      var ciphertext := FetchMediaCiphertext(c, endpoints, media[i]);
      if ciphertext.None? { return None; }
      ghost var before := entries;
      entries := entries + [TarEntry(MediaName(media[i].key), ciphertext.value)];
      assert entries[..2] == before[..2];
      i := i + 1;
    }
    bundle := Some(entries);
  }

  // ------------------------------------------------------------------- restoring

  /** What has been read: the manifest, the database, and the media stored so far. */
  datatype Reading = Reading(manifest: Option<Manifest>, db: Bytes, seen: map<string, Bytes>)

  const NOTHING := Reading(None, [], map[])

  function MediaHash(media: seq<MediaEntry>, key: string): Option<string> {
    if media == [] then None else if media[0].key == key then Some(media[0].sha) else MediaHash(media[1..], key)
  }

  predicate IsMediaName(name: string) {
    |name| > |MEDIA_PREFIX| && name[..|MEDIA_PREFIX|] == MEDIA_PREFIX
  }

  function ReadManifest(c: Codec, r: Reading, body: Bytes): Option<Reading> {
    var m := c.decode(body);
    if m.None? || m.value.version != VERSION then None else Some(r.(manifest := m))
  }

  function ReadMedia(c: Codec, r: Reading, key: string, body: Bytes): Option<Reading> {
    if r.manifest.None? then None
    else
      var sha := MediaHash(r.manifest.value.media, key);
      if sha.None? || !Accepts(c, sha.value, body) then None else Some(r.(seen := r.seen[key := body]))
  }

  function ReadEntry(c: Codec, r: Reading, e: TarEntry): Option<Reading> {
    if e.name == MANIFEST_PATH then ReadManifest(c, r, e.body)
    else if e.name == DB_PATH then Some(r.(db := e.body))
    else if IsMediaName(e.name) then ReadMedia(c, r, e.name[|MEDIA_PREFIX|..], e.body)
    else Some(r)
  }

  function ReadAll(c: Codec, entries: seq<TarEntry>): Option<Reading> {
    if entries == [] then Some(NOTHING)
    else
      var r := ReadAll(c, entries[..|entries| - 1]);
      if r.None? then None else ReadEntry(c, r.value, entries[|entries| - 1])
  }

  predicate Whole(r: Reading) {
    r.manifest.Some? && r.db != [] && forall i | 0 <= i < |r.manifest.value.media| :: r.manifest.value.media[i].key in r.seen
  }

  /** The archive restores. */
  predicate Restorable(c: Codec, entries: seq<TarEntry>) {
    ReadAll(c, entries).Some? && Whole(ReadAll(c, entries).value)
  }

  // -------------------------------------------------------------------- theorems

  ghost predicate DistinctKeys(media: seq<MediaEntry>) {
    forall i, j | 0 <= i < |media| && 0 <= j < |media| && media[i].key == media[j].key :: i == j
  }

  lemma {:induction false} HashOf(media: seq<MediaEntry>, i: nat)
    requires i < |media| && DistinctKeys(media)
    ensures MediaHash(media, media[i].key) == Some(media[i].sha)
  {
    if i > 0 {
      assert media[0].key != media[i].key;
      assert DistinctKeys(media[1..]);
      HashOf(media[1..], i - 1);
    }
  }

  lemma {:induction false} NamesApart(key: string)
    ensures MediaName(key) != MANIFEST_PATH && MediaName(key) != DB_PATH
    ensures IsMediaName(MediaName(key)) <==> key != ""
    ensures MediaName(key)[|MEDIA_PREFIX|..] == key
  {
    assert MediaName(key)[1] == 'e' && MANIFEST_PATH[1] == 'a' && DB_PATH[1] == 'b';
  }

  /** After the head and n media entries of a bundle. */
  ghost predicate HasRead(r: Reading, entries: seq<TarEntry>, snapshot: Bytes, media: seq<MediaEntry>, n: nat) {
    && n <= |media| && 2 + n <= |entries|
    && r.manifest == Some(Manifest(VERSION, media)) && r.db == snapshot
    && (forall i | 0 <= i < n && media[i].key != "" :: media[i].key in r.seen && r.seen[media[i].key] == entries[2 + i].body)
    && (forall k | k in r.seen :: k != "" && exists i :: 0 <= i < n && media[i].key == k)
  }

  lemma {:induction false} ReadHead(c: Codec, head: seq<TarEntry>, snapshot: Bytes, media: seq<MediaEntry>)
    requires Lawful(c) && IsHead(c, head, snapshot, media)
    ensures ReadAll(c, head) == Some(Reading(Some(Manifest(VERSION, media)), snapshot, map[]))
  {
    var m := Manifest(VERSION, media);
    assert head[..1] == [head[0]] && head[..1][..0] == [];
    assert c.decode(c.encode(m)) == Some(m);
    assert ReadAll(c, head[..1]) == Some(Reading(Some(m), [], map[]));
  }

  /** A media entry that was read, or one with an empty key that was passed over. */
  lemma {:induction false} HasReadNext(r: Reading, next: Reading, entries: seq<TarEntry>, snapshot: Bytes, media: seq<MediaEntry>, n: nat)
    requires DistinctKeys(media) && n < |media| && 2 + n < |entries| && HasRead(r, entries, snapshot, media, n)
    requires next == if media[n].key == "" then r else r.(seen := r.seen[media[n].key := entries[2 + n].body])
    ensures HasRead(next, entries, snapshot, media, n + 1)
  {
    forall i | 0 <= i < n + 1 && media[i].key != "" ensures media[i].key in next.seen && next.seen[media[i].key] == entries[2 + i].body {
      if i < n { assert media[i].key != media[n].key; }
    }
    forall k | k in next.seen ensures k != "" && exists i :: 0 <= i < n + 1 && media[i].key == k {
      if k in r.seen {
        var i :| 0 <= i < n && media[i].key == k;
      } else {
        assert media[n].key == k;
      }
    }
  }

  lemma {:induction false} ReadNext(c: Codec, r: Reading, entries: seq<TarEntry>, snapshot: Bytes, media: seq<MediaEntry>, n: nat)
    requires IsBundle(c, entries, snapshot, media) && DistinctKeys(media) && n < |media| && HasRead(r, entries, snapshot, media, n)
    ensures var next := ReadEntry(c, r, entries[2 + n]); next.Some? && HasRead(next.value, entries, snapshot, media, n + 1)
  {
    NamesApart(media[n].key);
    HashOf(media, n);
    var next := ReadEntry(c, r, entries[2 + n]);
    assert next == Some(if media[n].key == "" then r else r.(seen := r.seen[media[n].key := entries[2 + n].body]));
    HasReadNext(r, next.value, entries, snapshot, media, n);
  }

  lemma {:induction false} ReadUpTo(c: Codec, entries: seq<TarEntry>, snapshot: Bytes, media: seq<MediaEntry>, n: nat)
    requires Lawful(c) && IsBundle(c, entries, snapshot, media) && DistinctKeys(media) && n <= |media|
    ensures ReadAll(c, entries[..2 + n]).Some? && HasRead(ReadAll(c, entries[..2 + n]).value, entries, snapshot, media, n)
  {
    if n == 0 {
      ReadHead(c, entries[..2], snapshot, media);
    } else {
      ReadUpTo(c, entries, snapshot, media, n - 1);
      ReadNext(c, ReadAll(c, entries[..2 + (n - 1)]).value, entries, snapshot, media, n - 1);
      assert entries[..2 + n][..2 + (n - 1)] == entries[..2 + (n - 1)];
    }
  }

  /**
   * Restoring a built bundle gives back the snapshot and stores every live
   * file's ciphertext under its key.  It fails only for an empty snapshot or an
   * empty storage key, whose entry the reader does not take for media.
   */
  lemma {:induction false} RestoreUndoesBuild(c: Codec, entries: seq<TarEntry>, snapshot: Bytes, media: seq<MediaEntry>)
    requires Lawful(c) && IsBundle(c, entries, snapshot, media) && DistinctKeys(media)
    ensures Restorable(c, entries) <==> snapshot != [] && forall i | 0 <= i < |media| :: media[i].key != ""
    ensures Restorable(c, entries) ==> var r := ReadAll(c, entries).value;
      && r.db == snapshot
      && (forall i | 0 <= i < |media| :: media[i].key in r.seen && r.seen[media[i].key] == entries[2 + i].body)
      && (forall k | k in r.seen :: exists i :: 0 <= i < |media| && media[i].key == k)
  {
    ReadUpTo(c, entries, snapshot, media, |media|);
    assert entries[..2 + |media|] == entries;
  }

  // ------------------------------------------------------------ what restores

  /** The last of the first n entries with this name. */
  ghost predicate LastNamed(entries: seq<TarEntry>, n: nat, name: string, j: nat) {
    j < n <= |entries| && entries[j].name == name && forall k | j < k < n :: entries[k].name != name
  }

  ghost predicate NoneNamed(entries: seq<TarEntry>, n: nat, name: string) {
    n <= |entries| && forall k | 0 <= k < n :: entries[k].name != name
  }

  /** The first item with this key has this hash. */
  ghost predicate Lists(media: seq<MediaEntry>, key: string, sha: string) {
    exists i :: 0 <= i < |media| && media[i].key == key && media[i].sha == sha && forall j | 0 <= j < i :: media[j].key != key
  }

  lemma {:induction false} MediaHashIs(media: seq<MediaEntry>, key: string, sha: string)
    ensures MediaHash(media, key) == Some(sha) <==> Lists(media, key, sha)
    decreases |media|
  {
    if media != [] && media[0].key != key {
      MediaHashIs(media[1..], key, sha);
      if Lists(media[1..], key, sha) {
        var i :| 0 <= i < |media[1..]| && media[1..][i].key == key && media[1..][i].sha == sha && forall j | 0 <= j < i :: media[1..][j].key != key;
        forall j | 0 <= j < i + 1 ensures media[j].key != key { if j > 0 { assert media[j] == media[1..][j - 1]; } }
        assert media[i + 1].key == key && media[i + 1].sha == sha;
      }
      if Lists(media, key, sha) {
        var i :| 0 <= i < |media| && media[i].key == key && media[i].sha == sha && forall j | 0 <= j < i :: media[j].key != key;
        forall j | 0 <= j < i - 1 ensures media[1..][j].key != key { assert media[1..][j] == media[j + 1]; }
        assert media[1..][i - 1] == media[i];
      }
    }
  }

  /** The last manifest among the first n entries lists the key, with a hash that accepts the body. */
  ghost predicate Vouched(c: Codec, entries: seq<TarEntry>, n: nat, key: string, body: Bytes) {
    exists j: nat, sha :: VouchedBy(c, entries, n, key, body, j, sha)
  }

  ghost predicate VouchedBy(c: Codec, entries: seq<TarEntry>, n: nat, key: string, body: Bytes, j: nat, sha: string) {
    && LastNamed(entries, n, "manifest.json", j) && c.decode(entries[j].body).Some?
    && Lists(c.decode(entries[j].body).value.media, key, sha) && (sha == "" || c.hash(body) == sha)
  }

  /** A manifest must be one of this version, and media must be vouched for by the manifest in force. */
  ghost predicate Admissible(c: Codec, entries: seq<TarEntry>, i: nat)
    requires i < |entries|
  {
    && (entries[i].name == "manifest.json" ==> c.decode(entries[i].body).Some? && c.decode(entries[i].body).value.version == 1)
    && forall key | key != "" && entries[i].name == "media/" + key :: Vouched(c, entries, i, key, entries[i].body)
  }

  ghost predicate TellsManifest(c: Codec, entries: seq<TarEntry>, n: nat, manifest: Option<Manifest>) {
    && (forall j: nat | LastNamed(entries, n, "manifest.json", j) :: manifest == c.decode(entries[j].body) && manifest.Some?)
    && (NoneNamed(entries, n, "manifest.json") ==> manifest == None)
  }

  ghost predicate TellsDb(entries: seq<TarEntry>, n: nat, db: Bytes) {
    && (forall j: nat | LastNamed(entries, n, "db.sqlite3", j) :: db == entries[j].body)
    && (NoneNamed(entries, n, "db.sqlite3") ==> db == [])
  }

  ghost predicate TellsKey(entries: seq<TarEntry>, n: nat, seen: map<string, Bytes>, key: string) {
    && (forall j: nat | key != "" && LastNamed(entries, n, "media/" + key, j) :: key in seen && seen[key] == entries[j].body)
    && (key == "" || NoneNamed(entries, n, "media/" + key) ==> key !in seen)
  }

  /** r is what the first n entries say: of each name the last entry counts. */
  ghost predicate Tells(c: Codec, entries: seq<TarEntry>, n: nat, r: Reading) {
    && TellsManifest(c, entries, n, r.manifest) && TellsDb(entries, n, r.db)
    && forall key :: TellsKey(entries, n, r.seen, key)
  }

  lemma {:induction false} SomeLast(entries: seq<TarEntry>, n: nat, name: string) returns (j: nat)
    requires n <= |entries| && !NoneNamed(entries, n, name)
    ensures LastNamed(entries, n, name, j)
  {
    j := n - 1;
    if entries[n - 1].name != name {
      j := SomeLast(entries, n - 1, name);
    }
  }

  lemma {:induction false} LastNext(entries: seq<TarEntry>, n: nat, name: string, j: nat)
    requires n < |entries|
    ensures LastNamed(entries, n + 1, name, j) <==> if entries[n].name == name then j == n else LastNamed(entries, n, name, j)
    ensures NoneNamed(entries, n + 1, name) <==> entries[n].name != name && NoneNamed(entries, n, name)
  {
  }

  lemma {:induction false} MediaVouched(c: Codec, entries: seq<TarEntry>, n: nat, r: Reading, key: string, body: Bytes)
    requires n <= |entries| && TellsManifest(c, entries, n, r.manifest)
    ensures ReadMedia(c, r, key, body).Some? <==> Vouched(c, entries, n, key, body)
    ensures ReadMedia(c, r, key, body).Some? ==> ReadMedia(c, r, key, body).value == r.(seen := r.seen[key := body])
  {
    if ReadMedia(c, r, key, body).Some? {
      var j := SomeLast(entries, n, "manifest.json");
      var sha := MediaHash(r.manifest.value.media, key).value;
      MediaHashIs(r.manifest.value.media, key, sha);
      assert VouchedBy(c, entries, n, key, body, j, sha);
    }
    if Vouched(c, entries, n, key, body) {
      var j: nat, sha :| VouchedBy(c, entries, n, key, body, j, sha);
      MediaHashIs(r.manifest.value.media, key, sha);
    }
  }

  lemma {:induction false} OneKey(name: string, key: string)
    requires name == "media/" + key
    ensures name != "manifest.json" && name != "db.sqlite3" && (key != "" ==> IsMediaName(name)) && name[|MEDIA_PREFIX|..] == key
  {
    NamesApart(key);
  }

  lemma {:induction false} MediaNamed(name: string)
    ensures IsMediaName(name) ==> name == "media/" + name[|MEDIA_PREFIX|..] && name[|MEDIA_PREFIX|..] != ""
  {
  }

  lemma {:induction false} MediaAdmissible(c: Codec, entries: seq<TarEntry>, n: nat, r: Reading, key: string)
    requires n < |entries| && TellsManifest(c, entries, n, r.manifest) && key != "" && entries[n].name == "media/" + key
    ensures ReadEntry(c, r, entries[n]).Some? <==> Vouched(c, entries, n, key, entries[n].body)
    ensures Admissible(c, entries, n) <==> Vouched(c, entries, n, key, entries[n].body)
  {
    var e := entries[n];
    OneKey(e.name, key);
    MediaVouched(c, entries, n, r, key, e.body);
    forall other | e.name == "media/" + other ensures other == key { OneKey(e.name, other); }
  }

  /** The next entry is read exactly when it may stand there. */
  lemma {:induction false} AdmissibleIff(c: Codec, entries: seq<TarEntry>, n: nat, r: Reading)
    requires n < |entries| && TellsManifest(c, entries, n, r.manifest)
    ensures ReadEntry(c, r, entries[n]).Some? <==> Admissible(c, entries, n)
  {
    var e := entries[n];
    MediaNamed(e.name);
    if key :| key != "" && e.name == "media/" + key {
      MediaAdmissible(c, entries, n, r, key);
    }
  }

  lemma {:induction false} LastsNext(entries: seq<TarEntry>, n: nat, m: nat, name: string)
    requires n < |entries| && m == n + 1
    ensures entries[n].name == name ==> !NoneNamed(entries, m, name) && forall j: nat :: LastNamed(entries, m, name, j) <==> j == n
    ensures entries[n].name != name ==>
      && (NoneNamed(entries, m, name) <==> NoneNamed(entries, n, name))
      && forall j: nat :: LastNamed(entries, m, name, j) <==> LastNamed(entries, n, name, j)
  {
    forall j: nat ensures LastNamed(entries, m, name, j) <==> if entries[n].name == name then j == n else LastNamed(entries, n, name, j) {
      LastNext(entries, n, name, j);
    }
    LastNext(entries, n, name, 0);
  }

  lemma {:induction false} ManifestTold(c: Codec, entries: seq<TarEntry>, n: nat, m: nat, r: Reading, next: Reading)
    requires n < |entries| && m == n + 1 && TellsManifest(c, entries, n, r.manifest) && ReadEntry(c, r, entries[n]) == Some(next)
    ensures TellsManifest(c, entries, m, next.manifest)
  {
    LastsNext(entries, n, m, "manifest.json");
    assert next.manifest == if entries[n].name == "manifest.json" then c.decode(entries[n].body) else r.manifest;
  }

  lemma {:induction false} DbTold(c: Codec, entries: seq<TarEntry>, n: nat, m: nat, r: Reading, next: Reading)
    requires n < |entries| && m == n + 1 && TellsDb(entries, n, r.db) && ReadEntry(c, r, entries[n]) == Some(next)
    ensures TellsDb(entries, m, next.db)
  {
    LastsNext(entries, n, m, "db.sqlite3");
    assert next.db == if entries[n].name == "db.sqlite3" then entries[n].body else r.db;
  }

  lemma {:induction false} TellsNext(c: Codec, entries: seq<TarEntry>, n: nat, m: nat, r: Reading, next: Reading)
    requires n < |entries| && m == n + 1 && Tells(c, entries, n, r) && ReadEntry(c, r, entries[n]) == Some(next)
    ensures Tells(c, entries, m, next)
  {
    ManifestTold(c, entries, n, m, r, next);
    DbTold(c, entries, n, m, r, next);
    forall key ensures TellsKey(entries, m, next.seen, key) { KeyTold(c, entries, n, m, r, next, key); }
  }

  lemma {:induction false} KeyTold(c: Codec, entries: seq<TarEntry>, n: nat, m: nat, r: Reading, next: Reading, key: string)
    requires n < |entries| && m == n + 1 && TellsKey(entries, n, r.seen, key) && ReadEntry(c, r, entries[n]) == Some(next)
    ensures TellsKey(entries, m, next.seen, key)
  {
    var e, name := entries[n], "media/" + key;
    if e.name == name { OneKey(e.name, key); }
    MediaNamed(e.name);
    LastsNext(entries, n, m, name);
  }

  ghost predicate AllAdmissible(c: Codec, entries: seq<TarEntry>, n: nat) {
    n <= |entries| && forall i | 0 <= i < n :: Admissible(c, entries, i)
  }

  lemma {:induction false} ReadStep(c: Codec, entries: seq<TarEntry>, n: nat, m: nat, before: Option<Reading>, after: Option<Reading>)
    requires n < |entries| && m == n + 1
    requires (before.Some? <==> AllAdmissible(c, entries, n)) && (before.Some? ==> Tells(c, entries, n, before.value))
    requires after == if before.None? then None else ReadEntry(c, before.value, entries[n])
    ensures (after.Some? <==> AllAdmissible(c, entries, m)) && (after.Some? ==> Tells(c, entries, m, after.value))
  {
    if before.Some? {
      AdmissibleIff(c, entries, n, before.value);
      if after.Some? { TellsNext(c, entries, n, m, before.value, after.value); }
    }
  }

  /** The whole archive is read exactly when every entry may stand where it does, and then the last of each name counts. */
  lemma {:induction false} ReadIff(c: Codec, entries: seq<TarEntry>, n: nat, r: Option<Reading>)
    requires n <= |entries| && r == ReadAll(c, entries[..n])
    ensures (r.Some? <==> AllAdmissible(c, entries, n)) && (r.Some? ==> Tells(c, entries, n, r.value))
  {
    if n > 0 {
      var before := ReadAll(c, entries[..n - 1]);
      ReadIff(c, entries, n - 1, before);
      assert entries[..n][..n - 1] == entries[..n - 1];
      ReadStep(c, entries, n - 1, n, before, r);
    }
  }

  /** The manifest and the database that count are there, and every listed file has an entry. */
  ghost predicate Complete(c: Codec, entries: seq<TarEntry>, j: nat, k: nat) {
    && LastNamed(entries, |entries|, "manifest.json", j) && LastNamed(entries, |entries|, "db.sqlite3", k)
    && entries[k].body != [] && c.decode(entries[j].body).Some?
    && var media := c.decode(entries[j].body).value.media;
       forall i | 0 <= i < |media| :: media[i].key != "" && !NoneNamed(entries, |entries|, "media/" + media[i].key)
  }

  /** Which archives restore, and what to: any bytes an archive may hold, not only what building makes. */
  lemma {:induction false} RestorableIff(c: Codec, entries: seq<TarEntry>)
    ensures Restorable(c, entries) <==>
      AllAdmissible(c, entries, |entries|) && exists j: nat, k: nat :: Complete(c, entries, j, k)
    ensures Restorable(c, entries) ==> Tells(c, entries, |entries|, ReadAll(c, entries).value)
  {
    assert entries[..|entries|] == entries;
    ReadIff(c, entries, |entries|, ReadAll(c, entries));
    if ReadAll(c, entries).Some? {
      WholeIff(c, entries, ReadAll(c, entries).value);
    }
  }

  lemma {:induction false} WholeIff(c: Codec, entries: seq<TarEntry>, r: Reading)
    requires Tells(c, entries, |entries|, r)
    ensures Whole(r) <==> exists j: nat, k: nat :: Complete(c, entries, j, k)
  {
    var n := |entries|;
    if r.manifest.Some? && r.db != [] {
      var j := SomeLast(entries, n, "manifest.json");
      var k := SomeLast(entries, n, "db.sqlite3");
      var media := r.manifest.value.media;
      forall i | 0 <= i < |media|
        ensures media[i].key in r.seen <==> media[i].key != "" && !NoneNamed(entries, n, "media/" + media[i].key)
      {
        SeenIff(entries, n, r.seen, media[i].key);
      }
      assert Whole(r) <==> Complete(c, entries, j, k);
      forall a: nat, b: nat | Complete(c, entries, a, b) ensures a == j && b == k { }
    }
  }

  lemma {:induction false} SeenIff(entries: seq<TarEntry>, n: nat, seen: map<string, Bytes>, key: string)
    requires n <= |entries| && TellsKey(entries, n, seen, key)
    ensures key in seen <==> key != "" && !NoneNamed(entries, n, "media/" + key)
  {
    if key != "" && !NoneNamed(entries, n, "media/" + key) {
      var j := SomeLast(entries, n, "media/" + key);
    }
  }

  // ------------------------------------------------------------- restore operation

  /** Objects by endpoint and key. */
  type Objects = map<(string, string), Bytes>

  function PutAll(store: Objects, endpoints: seq<string>, key: string, body: Bytes): Objects {
    if endpoints == [] then store
    else PutAll(store, endpoints[..|endpoints| - 1], key, body)[(endpoints[|endpoints| - 1], key) := body]
  }

  /** Every endpoint holds exactly what was read for each key; other objects are untouched. */
  ghost predicate Stored(before: Objects, after: Objects, endpoints: seq<string>, seen: map<string, Bytes>) {
    forall ep, k :: Object(after, ep, k) == if ep in endpoints && k in seen then Some(seen[k]) else Object(before, ep, k)
  }

  ghost function Object(store: Objects, ep: string, k: string): Option<Bytes> {
    if (ep, k) in store then Some(store[(ep, k)]) else None
  }

  lemma {:induction false} PutAllAt(store: Objects, endpoints: seq<string>, key: string, body: Bytes, ep: string, k: string)
    ensures Object(PutAll(store, endpoints, key, body), ep, k) == if ep in endpoints && k == key then Some(body) else Object(store, ep, k)
  {
    if endpoints != [] {
      var n := |endpoints| - 1;
      PutAllAt(store, endpoints[..n], key, body, ep, k);
      assert endpoints == endpoints[..n] + [endpoints[n]];
    }
  }

  /** Storing an object at an endpoint: its etag, or a failure. */
  type Put = (string, string, Bytes) -> Option<string>

  /** The endpoints in order until one fails; `copies` have the object then. */
  method PutEverywhere(put: Put, store: Objects, endpoints: seq<string>, key: string, body: Bytes) returns (after: Objects, copies: nat)
    ensures copies <= |endpoints| && after == PutAll(store, endpoints[..copies], key, body)
    ensures forall j | 0 <= j < copies :: put(endpoints[j], key, body).Some?
    ensures copies < |endpoints| ==> put(endpoints[copies], key, body).None?
  {
    after := store;
    copies := 0;
    while copies < |endpoints|
      invariant 0 <= copies <= |endpoints| && after == PutAll(store, endpoints[..copies], key, body)
      invariant forall j | 0 <= j < copies :: put(endpoints[j], key, body).Some?
    {
      if put(endpoints[copies], key, body).None? {
        return;
      }
      assert endpoints[..copies + 1][..copies] == endpoints[..copies];
      after := after[(endpoints[copies], key) := body];
      copies := copies + 1;
    }
  }

  predicate IsMedia(e: TarEntry) {
    e.name != MANIFEST_PATH && e.name != DB_PATH && IsMediaName(e.name)
  }

  function KeyOf(e: TarEntry): string
    requires IsMedia(e)
  {
    e.name[|MEDIA_PREFIX|..]
  }

  /** Every endpoint takes what the entry carries. */
  ghost predicate Taken(put: Put, endpoints: seq<string>, e: TarEntry) {
    IsMedia(e) ==> forall j | 0 <= j < |endpoints| :: put(endpoints[j], KeyOf(e), e.body).Some?
  }

  ghost predicate AllTaken(put: Put, endpoints: seq<string>, entries: seq<TarEntry>) {
    forall i | 0 <= i < |entries| :: Taken(put, endpoints, entries[i])
  }

  /** Reading ends before entry n: there is none, it is refused, or an endpoint fails to take it. */
  ghost predicate EndsBefore(c: Codec, put: Put, endpoints: seq<string>, entries: seq<TarEntry>, n: nat, copies: nat) {
    && n <= |entries| && ReadAll(c, entries[..n]).Some? && AllTaken(put, endpoints, entries[..n])
    && if n < |entries| && ReadAll(c, entries[..n + 1]).Some?
       then copies < |endpoints| && FailsAt(put, endpoints, entries[n], copies)
       else copies == 0
  }

  /** The entry's object is stored at so many endpoints and fails at the next. */
  ghost predicate FailsAt(put: Put, endpoints: seq<string>, e: TarEntry, copies: nat)
    requires copies < |endpoints|
  {
    && IsMedia(e) && put(endpoints[copies], KeyOf(e), e.body).None?
    && forall j | 0 <= j < copies :: put(endpoints[j], KeyOf(e), e.body).Some?
  }

  /** What was read is stored everywhere; the entry that failed, if any, at the endpoints before the failure. */
  ghost predicate LeftBehind(before: Objects, after: Objects, endpoints: seq<string>, seen: map<string, Bytes>,
                             entries: seq<TarEntry>, n: nat, copies: nat) {
    if copies == 0 then Stored(before, after, endpoints, seen)
    else
      && n < |entries| && IsMedia(entries[n]) && copies <= |endpoints|
      && exists mid: Objects :: Stored(before, mid, endpoints, seen) && after == PutAll(mid, endpoints[..copies], KeyOf(entries[n]), entries[n].body)
  }

  lemma {:induction false} StoredNext(before: Objects, mid: Objects, endpoints: seq<string>, seen: map<string, Bytes>, key: string, body: Bytes)
    requires Stored(before, mid, endpoints, seen)
    ensures Stored(before, PutAll(mid, endpoints, key, body), endpoints, seen[key := body])
  {
    var after, more := PutAll(mid, endpoints, key, body), seen[key := body];
    forall ep, k ensures Object(after, ep, k) == if ep in endpoints && k in more then Some(more[k]) else Object(before, ep, k) {
      PutAllAt(mid, endpoints, key, body, ep, k);
    }
  }

  /**
   * The loop over the archive.  The media of an entry go to every endpoint as
   * soon as it is read, so a refusal leaves behind the objects of the entries
   * before it, and a failing endpoint those of its own entry that came first.
   */
  method ReadPayload(c: Codec, entries: seq<TarEntry>, endpoints: seq<string>, put: Put, store: Objects)
    returns (reading: Option<Reading>, after: Objects, ghost read: nat, ghost copies: nat)
    ensures EndsBefore(c, put, endpoints, entries, read, copies)
    ensures LeftBehind(store, after, endpoints, ReadAll(c, entries[..read]).value.seen, entries, read, copies)
    ensures reading.Some? <==> read == |entries|
    ensures reading.Some? ==> reading == ReadAll(c, entries)
  {
    after := store;
    var so := NOTHING;
    var i := 0;
    while i < |entries|
      invariant 0 <= i <= |entries| && ReadAll(c, entries[..i]) == Some(so) && AllTaken(put, endpoints, entries[..i])
      invariant Stored(store, after, endpoints, so.seen)
    {
      assert entries[..i + 1][..i] == entries[..i];
      var e := entries[i];
      var next := ReadEntry(c, so, e);
      if next.None? {
        return None, after, i, 0;
      }
      if IsMedia(e) {
        ghost var mid := after;
        var n;
        after, n := PutEverywhere(put, after, endpoints, KeyOf(e), e.body);
        if n < |endpoints| {
          return None, after, i, n;
        }
        assert endpoints[..n] == endpoints;
        StoredNext(store, mid, endpoints, so.seen, KeyOf(e), e.body);
      }
      so, i := next.value, i + 1;
    }
    assert entries[..i] == entries;
    reading, read, copies := Some(so), i, 0;
  }

  // ---------------------------------------------------------- replica rows

  datatype Replica = Replica(key: string, etag: string, size: nat)

  /** file_s3, whose primary key is the file and the endpoint. */
  type Replicas = map<(int, string), Replica>

  /** What the restored database holds of it, and its files that are not deleted. */
  datatype Tables = Tables(replicas: Replicas, live: set<int>)

  function Row(rows: Replicas, f: int, ep: string): Option<Replica> {
    if (f, ep) in rows then Some(rows[(f, ep)]) else None
  }

  /** The row for an object at one endpoint; an object that was not seen has no etag and no size. */
  function RowFor(put: Put, seen: map<string, Bytes>, item: MediaEntry, ep: string): Replica {
    if item.key !in seen then Replica(item.key, "", 0)
    else
      var etag := put(ep, item.key, seen[item.key]);
      Replica(item.key, if etag.Some? then etag.value else "", |seen[item.key]|)
  }

  /** DELETE FROM file_s3 WHERE file_id IN (the files that are not deleted). */
  function Cleared(t: Tables): Replicas {
    map p | p in t.replicas && p.0 !in t.live :: t.replicas[p]
  }

  /** The last of the first n items for a file. */
  function ItemOf(media: seq<MediaEntry>, n: nat, f: int): Option<MediaEntry>
    requires n <= |media|
  {
    if n == 0 then None else if media[n - 1].fileId == f then Some(media[n - 1]) else ItemOf(media, n - 1, f)
  }

  lemma {:induction false} ItemOfIs(media: seq<MediaEntry>, n: nat, f: int)
    requires n <= |media|
    ensures ItemOf(media, n, f).Some? <==> exists i :: 0 <= i < n && media[i].fileId == f
    ensures ItemOf(media, n, f).Some? ==> ItemOf(media, n, f).value in media && ItemOf(media, n, f).value.fileId == f
  {
    if n > 0 { ItemOfIs(media, n - 1, f); }
  }

  /** No primary key is used twice: neither by two of the rows nor by a row that is still there. */
  ghost predicate RowsFit(rows: Replicas, media: seq<MediaEntry>, n: nat, endpoints: seq<string>)
    requires n <= |media|
  {
    n == 0 || endpoints == [] ||
      (NoDup(endpoints)
      && (forall i, j | 0 <= i < j < n :: media[i].fileId != media[j].fileId)
      && (forall i, ep | 0 <= i < n && ep in endpoints :: (media[i].fileId, ep) !in rows))
  }

  /** The rows of the first n items stand beside the ones that were there. */
  ghost predicate RowsAdded(put: Put, seen: map<string, Bytes>, rows: Replicas, media: seq<MediaEntry>, n: nat, endpoints: seq<string>, after: Replicas)
    requires n <= |media|
  {
    forall f, ep :: Row(after, f, ep) ==
      if ep in endpoints && ItemOf(media, n, f).Some? then Some(RowFor(put, seen, ItemOf(media, n, f).value, ep)) else Row(rows, f, ep)
  }

  /** One item's rows, at each of the endpoints. */
  ghost predicate ItemRows(put: Put, seen: map<string, Bytes>, rows: Replicas, item: MediaEntry, endpoints: seq<string>, after: Replicas) {
    forall f, ep :: Row(after, f, ep) == if ep in endpoints && f == item.fileId then Some(RowFor(put, seen, item, ep)) else Row(rows, f, ep)
  }

  lemma {:induction false} RowInserted(put: Put, seen: map<string, Bytes>, rows: Replicas, item: MediaEntry, endpoints: seq<string>,
                                       after: Replicas, ep: string)
    requires ItemRows(put, seen, rows, item, endpoints, after)
    ensures ItemRows(put, seen, rows, item, endpoints + [ep], after[(item.fileId, ep) := RowFor(put, seen, item, ep)])
    ensures (item.fileId, ep) in after <==> ep in endpoints || (item.fileId, ep) in rows
  {
    assert Row(after, item.fileId, ep).Some? <==> ep in endpoints || Row(rows, item.fileId, ep).Some?;
    var next := after[(item.fileId, ep) := RowFor(put, seen, item, ep)];
    forall f, e ensures Row(next, f, e) ==
      (if e in endpoints + [ep] && f == item.fileId then Some(RowFor(put, seen, item, e)) else Row(rows, f, e))
    {
      assert Row(next, f, e) == if f == item.fileId && e == ep then Some(RowFor(put, seen, item, ep)) else Row(after, f, e);
      assert e in endpoints + [ep] <==> e in endpoints || e == ep;
    }
  }

  /** No endpoint is listed twice, and the item has no row yet at any of them. */
  ghost predicate ItemFits(rows: Replicas, item: MediaEntry, endpoints: seq<string>) {
    NoDup(endpoints) && forall ep | ep in endpoints :: (item.fileId, ep) !in rows
  }

  method InsertRows(put: Put, seen: map<string, Bytes>, rows: Replicas, item: MediaEntry, endpoints: seq<string>) returns (r: Option<Replicas>)
    ensures r.Some? <==> ItemFits(rows, item, endpoints)
    ensures r.Some? ==> ItemRows(put, seen, rows, item, endpoints, r.value)
  {
    var after := rows;
    var e := 0;
    while e < |endpoints|
      invariant 0 <= e <= |endpoints| && ItemFits(rows, item, endpoints[..e])
      invariant ItemRows(put, seen, rows, item, endpoints[..e], after)
    {
      var ep := endpoints[e];
      RowInserted(put, seen, rows, item, endpoints[..e], after, ep);
      if (item.fileId, ep) in after {
        assert ep in endpoints[..e] ==> !NoDup(endpoints);
        return None;
      }
      assert endpoints[..e + 1] == endpoints[..e] + [ep];
      after, e := after[(item.fileId, ep) := RowFor(put, seen, item, ep)], e + 1;
    }
    assert endpoints[..e] == endpoints;
    r := Some(after);
  }

  /** The next item fits among the rows of the ones before exactly when all of them fit. */
  lemma {:induction false} FitNext(put: Put, seen: map<string, Bytes>, rows: Replicas, media: seq<MediaEntry>, n: nat,
                                   endpoints: seq<string>, after: Replicas)
    requires n < |media| && RowsFit(rows, media, n, endpoints) && RowsAdded(put, seen, rows, media, n, endpoints, after)
    ensures ItemFits(after, media[n], endpoints) <==> RowsFit(rows, media, n + 1, endpoints)
  {
    var f := media[n].fileId;
    ItemOfIs(media, n, f);
    forall ep | ep in endpoints ensures (f, ep) in after <==> (f, ep) in rows || exists i :: 0 <= i < n && media[i].fileId == f {
      assert Row(after, f, ep).Some? <==> ItemOf(media, n, f).Some? || Row(rows, f, ep).Some?;
    }
    if endpoints != [] {
      assert endpoints[0] in endpoints;
      if ItemFits(after, media[n], endpoints) {
        assert (f, endpoints[0]) !in after;
        assert RowsFit(rows, media, n + 1, endpoints);
      }
    }
  }

  lemma {:induction false} AddNext(put: Put, seen: map<string, Bytes>, rows: Replicas, media: seq<MediaEntry>, n: nat,
                                   endpoints: seq<string>, after: Replicas, next: Replicas)
    requires n < |media| && RowsAdded(put, seen, rows, media, n, endpoints, after)
    requires ItemRows(put, seen, after, media[n], endpoints, next)
    ensures RowsAdded(put, seen, rows, media, n + 1, endpoints, next)
  {
  }

  lemma {:induction false} FitFewer(rows: Replicas, media: seq<MediaEntry>, n: nat, endpoints: seq<string>)
    requires n <= |media| && RowsFit(rows, media, |media|, endpoints)
    ensures RowsFit(rows, media, n, endpoints)
  {
  }

  /** One transaction: a row that is refused leaves the table as the snapshot has it. */
  method NormalizeReplicaState(put: Put, seen: map<string, Bytes>, t: Tables, media: seq<MediaEntry>, endpoints: seq<string>)
    returns (r: Option<Replicas>)
    ensures media == [] ==> r == Some(t.replicas)
    ensures media != [] ==> (r.Some? <==> RowsFit(Cleared(t), media, |media|, endpoints))
    ensures media != [] && r.Some? ==> RowsAdded(put, seen, Cleared(t), media, |media|, endpoints, r.value)
  {
    if |media| == 0 {
      return Some(t.replicas);
    }
    var rows := Cleared(t);
    var i := 0;
    while i < |media|
      invariant 0 <= i <= |media| && RowsFit(Cleared(t), media, i, endpoints)
      invariant RowsAdded(put, seen, Cleared(t), media, i, endpoints, rows)
    {
      FitNext(put, seen, Cleared(t), media, i, endpoints, rows);
      var more := InsertRows(put, seen, rows, media[i], endpoints);
      if more.None? {
        if RowsFit(Cleared(t), media, |media|, endpoints) { FitFewer(Cleared(t), media, i + 1, endpoints); }
        return None;
      }
      AddNext(put, seen, Cleared(t), media, i, endpoints, rows, more.value);
      rows, i := more.value, i + 1;
    }
    r := Some(rows);
  }

  // --------------------------------------------------------------- the operation

  datatype Outcome = Refused | LegacyRestored | Restored(mediaFiles: nat, replicas: Replicas)

  /** An entry that is refused refuses the archive. */
  lemma {:induction false} Doomed(c: Codec, entries: seq<TarEntry>, n: nat)
    requires n <= |entries| && ReadAll(c, entries[..n]).None?
    ensures ReadAll(c, entries).None?
    decreases |entries|
  {
    if n < |entries| {
      var m := |entries| - 1;
      assert entries[..m][..n] == entries[..n];
      Doomed(c, entries[..m], n);
    } else {
      assert entries[..n] == entries;
    }
  }

  lemma {:induction false} ReadToTheEndIff(c: Codec, put: Put, endpoints: seq<string>, entries: seq<TarEntry>, n: nat, copies: nat)
    requires EndsBefore(c, put, endpoints, entries, n, copies)
    ensures n == |entries| <==> ReadAll(c, entries).Some? && AllTaken(put, endpoints, entries)
  {
    if n == |entries| {
      assert entries[..n] == entries;
    } else if ReadAll(c, entries[..n + 1]).None? {
      Doomed(c, entries, n + 1);
    } else {
      assert !Taken(put, endpoints, entries[n]);
    }
  }

  /** The replica table after the synchronisation; a manifest without media leaves it alone. */
  ghost predicate Synchronised(put: Put, seen: map<string, Bytes>, t: Tables, media: seq<MediaEntry>, endpoints: seq<string>, rows: Replicas) {
    if media == [] then rows == t.replicas else RowsAdded(put, seen, Cleared(t), media, |media|, endpoints, rows)
  }

  /**
   * How a restore can end.  `dump` is what the restored database holds.  The
   * database file is written when everything was read and stored, before the
   * replica rows are brought up to date, so it stays when that fails.
   */
  ghost predicate BundleOutcome(c: Codec, entries: seq<TarEntry>, endpoints: seq<string>, put: Put, dump: Bytes -> Tables, store: Objects,
                                r: Outcome, file: Option<Bytes>, after: Objects, read: nat, copies: nat) {
    && EndsBefore(c, put, endpoints, entries, read, copies)
    && LeftBehind(store, after, endpoints, ReadAll(c, entries[..read]).value.seen, entries, read, copies)
    && (file.Some? <==> Restorable(c, entries) && AllTaken(put, endpoints, entries))
    && (r.Restored? ==> file.Some?) && !r.LegacyRestored?
    && (file.Some? ==> Finished(ReadAll(c, entries).value, endpoints, put, dump, store, r, file.value, after))
  }

  /** Everything was read and stored: the replica rows decide. */
  ghost predicate Finished(all: Reading, endpoints: seq<string>, put: Put, dump: Bytes -> Tables, store: Objects,
                           r: Outcome, file: Bytes, after: Objects)
    requires all.manifest.Some?
  {
    var media := all.manifest.value.media;
    && file == all.db && Stored(store, after, endpoints, all.seen)
    && (r.Restored? <==> media == [] || RowsFit(Cleared(dump(file)), media, |media|, endpoints))
    && (r.Restored? ==> r.mediaFiles == |media| && Synchronised(put, all.seen, dump(file), media, endpoints, r.replicas))
  }

  method RestoreBundle(c: Codec, entries: seq<TarEntry>, endpoints: seq<string>, put: Put, dump: Bytes -> Tables, store: Objects)
    returns (r: Outcome, file: Option<Bytes>, after: Objects, ghost read: nat, ghost copies: nat)
    ensures BundleOutcome(c, entries, endpoints, put, dump, store, r, file, after, read, copies)
  {
    var reading;
    reading, after, read, copies := ReadPayload(c, entries, endpoints, put, store);
    ReadToTheEndIff(c, put, endpoints, entries, read, copies);
    assert entries[..|entries|] == entries;
    if reading.None? || !Whole(reading.value) {
      return Refused, None, after, read, copies;
    }
    var media := reading.value.manifest.value.media;
    file := Some(reading.value.db);
    var rows := NormalizeReplicaState(put, reading.value.seen, dump(reading.value.db), media, endpoints);
    r := if rows.None? then Refused else Restored(|media|, rows.value);
  }

  const MAGIC_TEXT := "MENTISETERNA-BACKUP-BUNDLE\n"

  function Text(s: string): (b: Bytes)
    ensures |b| == |s|
  {
    seq(|s|, i requires 0 <= i < |s| => s[i] as int)
  }

  /** The tar format. */
  datatype Archive = Archive(write: seq<TarEntry> -> Bytes, read: Bytes -> seq<TarEntry>)

  function BundleFile(a: Archive, entries: seq<TarEntry>): Bytes {
    Text(MAGIC_TEXT) + a.write(entries)
  }

  /** The backups of earlier versions are the database file itself, and one never passes for a bundle. */
  lemma {:induction false} DatabaseIsLegacy(plaintext: Bytes)
    requires Text("SQLite format 3") <= plaintext
    ensures !(Text(MAGIC_TEXT) <= plaintext)
  {
    assert plaintext[0] == Text("SQLite format 3")[0] == 'S' as int;
    assert Text(MAGIC_TEXT)[0] == 'M' as int;
  }

  method RestorePayload(c: Codec, a: Archive, plaintext: Bytes, endpoints: seq<string>, put: Put, dump: Bytes -> Tables, store: Objects)
    returns (r: Outcome, file: Option<Bytes>, after: Objects, ghost read: nat, ghost copies: nat)
    ensures !(Text("MENTISETERNA-BACKUP-BUNDLE\n") <= plaintext) ==> r == LegacyRestored && file == Some(plaintext) && after == store
    ensures Text(MAGIC_TEXT) <= plaintext ==>
      BundleOutcome(c, a.read(plaintext[|MAGIC_TEXT|..]), endpoints, put, dump, store, r, file, after, read, copies)
    ensures forall entries | plaintext == BundleFile(a, entries) && a.read(a.write(entries)) == entries ::
      BundleOutcome(c, entries, endpoints, put, dump, store, r, file, after, read, copies)
  {
    var magic := Text(MAGIC_TEXT);
    if !(magic <= plaintext) {
      r, file, after, read, copies := LegacyRestored, Some(plaintext), store, 0, 0;
      return;
    }
    r, file, after, read, copies := RestoreBundle(c, a.read(plaintext[|magic|..]), endpoints, put, dump, store);
    forall entries | plaintext == BundleFile(a, entries) && a.read(a.write(entries)) == entries
      ensures BundleOutcome(c, entries, endpoints, put, dump, store, r, file, after, read, copies)
    {
      assert plaintext[|magic|..] == a.write(entries);
    }
  }

  /** The manifest lists exactly the files that are not deleted, each once, as building a bundle makes it. */
  ghost predicate ListsLive(t: Tables, media: seq<MediaEntry>) {
    && (forall i, j | 0 <= i < j < |media| :: media[i].fileId != media[j].fileId)
    && (forall f :: f in t.live <==> exists i :: 0 <= i < |media| && media[i].fileId == f)
  }

  /** A live file has a row for an endpoint exactly when the restore stored it there, and the row describes the object. */
  ghost predicate RowsAreTrue(put: Put, media: seq<MediaEntry>, endpoints: seq<string>, store: Objects, rows: Replicas) {
    forall i, ep | 0 <= i < |media| :: RowIsTrue(put, media[i], ep, endpoints, store, Row(rows, media[i].fileId, ep))
  }

  ghost predicate RowIsTrue(put: Put, item: MediaEntry, ep: string, endpoints: seq<string>, store: Objects, row: Option<Replica>) {
    && (row.Some? <==> ep in endpoints)
    && (row.Some? ==>
          && row.value.key == item.key && Object(store, ep, item.key).Some?
          && var stored := Object(store, ep, item.key).value; var etag := put(ep, item.key, stored);
             row.value.size == |stored| && (etag.Some? ==> row.value.etag == etag.value))
  }

  /** Rows of deleted files are as the snapshot has them. */
  ghost predicate DeadRowsKept(t: Tables, rows: Replicas) {
    forall f, ep | f !in t.live :: Row(rows, f, ep) == Row(t.replicas, f, ep)
  }

  lemma {:induction false} ItemAt(media: seq<MediaEntry>, n: nat, i: nat)
    requires i < n <= |media| && forall j, k | 0 <= j < k < |media| :: media[j].fileId != media[k].fileId
    ensures ItemOf(media, n, media[i].fileId) == Some(media[i])
  {
    if i < n - 1 { ItemAt(media, n - 1, i); }
  }

  /**
   * A built bundle that was restored: its replica rows can be written exactly
   * when no endpoint is configured twice, and then they say of the live files
   * which endpoint holds what, whatever rows the snapshot had.
   */
  lemma {:induction false} RestoredRowsAreTrue(c: Codec, entries: seq<TarEntry>, snapshot: Bytes, media: seq<MediaEntry>, endpoints: seq<string>,
                                               put: Put, t: Tables, before: Objects, store: Objects, rows: Replicas)
    requires Lawful(c) && IsBundle(c, entries, snapshot, media) && DistinctKeys(media) && Restorable(c, entries)
    requires ListsLive(t, media) && Stored(before, store, endpoints, ReadAll(c, entries).value.seen)
    ensures media == [] || (RowsFit(Cleared(t), media, |media|, endpoints) <==> NoDup(endpoints))
    ensures Synchronised(put, ReadAll(c, entries).value.seen, t, media, endpoints, rows) ==>
      RowsAreTrue(put, media, endpoints, store, rows) && DeadRowsKept(t, rows)
  {
    var seen := ReadAll(c, entries).value.seen;
    RestoreUndoesBuild(c, entries, snapshot, media);
    if Synchronised(put, seen, t, media, endpoints, rows) {
      forall i, ep | 0 <= i < |media| ensures RowIsTrue(put, media[i], ep, endpoints, store, Row(rows, media[i].fileId, ep)) {
        ItemAt(media, |media|, i);
        assert media[i].fileId in t.live && media[i].key in seen;
      }
      forall f, ep | f !in t.live ensures Row(rows, f, ep) == Row(t.replicas, f, ep) { ItemOfIs(media, |media|, f); }
    }
  }
}
