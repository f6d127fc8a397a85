/** A problem tree held in memory, keyed by normal forms. */
module Archive {
  import opened Prelude
  import opened Ordering
  import opened Text
  import opened Paths

  datatype TarEntry = TarEntry(mode: bv32, data: Bytes)

  /** One file of an uploaded archive, before its name is checked. */
  datatype Upload = Upload(path: string, mode: bv32, data: Bytes)

  type Entries = map<string, TarEntry>

  predicate ModeIsExecutable(mode: bv32) {
    mode & 0x49 != 0
  }

  /** Executable means executable for the user, the group, or others. */
  lemma ExecutableBits(mode: bv32)
    ensures ModeIsExecutable(mode) <==> mode & 0x40 != 0 || mode & 0x8 != 0 || mode & 0x1 != 0
  {
    assert mode & 0x49 == (mode & 0x40) | (mode & 0x8) | (mode & 0x1);
  }

  // Reads.

  function Get(entries: Entries, path: string): Result<TarEntry, SourceError> {
    match Normal(path)
    case Err(e) => Err(e)
    case Ok(key) => if key in entries then Ok(entries[key]) else Err(NotFound(key))
  }

  function Read(entries: Entries, path: string): Result<Bytes, SourceError> {
    match Get(entries, path) case Err(e) => Err(e) case Ok(e) => Ok(e.data)
  }

  function IsExecutable(entries: Entries, path: string): Result<bool, SourceError> {
    match Get(entries, path) case Err(e) => Err(e) case Ok(e) => Ok(ModeIsExecutable(e.mode))
  }

  function Keys(entries: Entries, selected: set<string>): seq<string> {
    LexIsTotal();
    Ascending(LexBelow, entries.Keys * selected)
  }

  /** Files at or under `prefix`, found by comparing strings. */
  function List(entries: Entries, prefix: string): Result<seq<string>, SourceError> {
    if prefix == "" || prefix == "." then Ok(Keys(entries, entries.Keys))
    else
      match Normal(prefix)
      case Err(e) => Err(e)
      case Ok(key) => Ok(Keys(entries, set k | k in entries && (k == key || key + "/" <= k)))
  }

  /** A string comparison that means containment: the prefix with a slash is a prefix of segments. */
  lemma PrefixIsSegmentPrefix(key: string, k: string)
    ensures k == key || key + "/" <= k <==> Split(key, '/') <= Split(k, '/')
  {
    var a, b := Split(key, '/'), Split(k, '/');
    if key + "/" <= k {
      var rest := k[|key| + 1..];
      assert k == key + ['/'] + rest;
      SplitConcat(key, rest, '/');
    }
    if a <= b {
      var more := b[|a|..];
      assert b == a + more;
      JoinSplit(key, '/');
      JoinSplit(k, '/');
      if more != [] {
        JoinConcat(a, more, '/');
      } else {
        assert a == b;
      }
    }
  }

  /** Listing a prefix gives, sorted, exactly the files whose segments extend the prefix's; the empty prefix gives all files. */
  lemma ListIsSubtree(entries: Entries, prefix: string)
    ensures match List(entries, prefix)
      case Err(e) => prefix != "" && prefix != "." && Normal(prefix) == Err(e)
      case Ok(ks) =>
        && Increasing(LexBelow, ks)
        && (prefix == "" || prefix == "." ==> forall k :: k in ks <==> k in entries)
        && (prefix != "" && prefix != "." ==>
              && Normal(prefix).Ok?
              && forall k :: k in ks <==> k in entries && Split(Normal(prefix).value, '/') <= Split(k, '/'))
  {
    LexIsTotal();
    if prefix != "" && prefix != "." && Normal(prefix).Ok? {
      var key := Normal(prefix).value;
      hide Normal;
      forall k ensures k == key || key + "/" <= k <==> Split(key, '/') <= Split(k, '/') {
        PrefixIsSegmentPrefix(key, k);
      }
    }
  }

  // Writes.

  /** The archive the uploads build, in order; the first bad name refuses the whole. */
  function Built(uploads: seq<Upload>): Result<Entries, SourceError> {
    if uploads == [] then Ok(map[])
    else
      var n := |uploads| - 1;
      match Built(uploads[..n])
      case Err(e) => Err(e)
      case Ok(entries) =>
        match Normal(uploads[n].path)
        case Err(e) => Err(e)
        case Ok(key) => Ok(entries[key := TarEntry(uploads[n].mode, uploads[n].data)])
  }

  ghost predicate AllCanonical(entries: Entries) {
    forall k :: k in entries ==> Canonical(k)
  }

  class TarSource {
    var entries: Entries

    ghost predicate Valid()
      reads this
    {
      AllCanonical(entries)
    }

    constructor ()
      ensures Valid() && entries == map[]
    {
      entries := map[];
    }

    method Insert(path: string, mode: bv32, data: Bytes) returns (r: Result<(), SourceError>)
      requires Valid()
      modifies this
      ensures Valid()
      ensures match Normal(path)
        case Err(e) => r == Err(e) && entries == old(entries)
        case Ok(key) => r == Ok(()) && entries == old(entries)[key := TarEntry(mode, data)]
    {
      var key := Normalize(path);
      if key.Err? {
        return Err(key.error);
      }
      NormalSegments(path);
      entries := entries[key.value := TarEntry(mode, data)];
      r := Ok(());
    }

    static method FromEntries(uploads: seq<Upload>) returns (r: Result<TarSource, SourceError>)
      ensures match Built(uploads)
        case Err(e) => r == Err(e)
        case Ok(entries) => r.Ok? && fresh(r.value) && r.value.Valid() && r.value.entries == entries
    {
      var source := new TarSource();
      for i := 0 to |uploads|
        invariant fresh(source) && source.Valid() && Built(uploads[..i]) == Ok(source.entries)
      {
        assert uploads[..i + 1][..i] == uploads[..i];
        var inserted := source.Insert(uploads[i].path, uploads[i].mode, uploads[i].data);
        if inserted.Err? {
          BuiltFails(uploads, i + 1);
          return Err(inserted.error);
        }
      }
      assert uploads[..|uploads|] == uploads;
      r := Ok(source);
    }
  }

  lemma {:induction false} BuiltFails(uploads: seq<Upload>, i: nat)
    requires i <= |uploads| && Built(uploads[..i]).Err?
    ensures Built(uploads) == Built(uploads[..i])
  {
    var n := |uploads| - 1;
    if i == |uploads| {
      assert uploads[..i] == uploads;
    } else {
      assert uploads[..n][..i] == uploads[..i];
      BuiltFails(uploads[..n], i);
    }
  }

  /** The archive is refused exactly for its first upload without a normal form, and with that upload's error. */
  lemma {:induction false} FirstBadNameDecides(uploads: seq<Upload>)
    ensures Built(uploads).Ok? <==> forall i :: 0 <= i < |uploads| ==> Normal(uploads[i].path).Ok?
    ensures forall i :: 0 <= i < |uploads| && Normal(uploads[i].path).Err? && (forall j :: 0 <= j < i ==> Normal(uploads[j].path).Ok?) ==>
              Built(uploads) == Err(Normal(uploads[i].path).error)
  {
    hide Normal;
    if uploads != [] {
      var n := |uploads| - 1;
      FirstBadNameDecides(uploads[..n]);
      assert forall j :: 0 <= j < n ==> uploads[..n][j] == uploads[j];
      forall i | 0 <= i < |uploads| && Normal(uploads[i].path).Err? && (forall j :: 0 <= j < i ==> Normal(uploads[j].path).Ok?)
        ensures Built(uploads) == Err(Normal(uploads[i].path).error)
      {
        if i < n {
          assert Normal(uploads[..n][i].path).Err?;
        }
      }
    }
  }

  /** Upload `i` is the last one whose name normalises to `key`. */
  ghost predicate LastFor(uploads: seq<Upload>, key: string, i: nat) {
    && i < |uploads| && Normal(uploads[i].path) == Ok(key)
    && forall j :: i < j < |uploads| ==> Normal(uploads[j].path) != Ok(key)
  }

  /** A key holds the last upload that normalises to it, and there are no other keys. */
  lemma {:induction false} LastUploadWins(uploads: seq<Upload>, key: string)
    requires Built(uploads).Ok?
    ensures var entries := Built(uploads).value;
      && (key in entries <==> exists i: nat :: LastFor(uploads, key, i))
      && forall i: nat :: LastFor(uploads, key, i) ==> key in entries && entries[key] == TarEntry(uploads[i].mode, uploads[i].data)
  {
    hide Normal;
    if uploads != [] {
      var n := |uploads| - 1;
      LastUploadWins(uploads[..n], key);
      if Normal(uploads[n].path) == Ok(key) {
        assert LastFor(uploads, key, n);
      } else {
        forall i: nat ensures LastFor(uploads, key, i) <==> LastFor(uploads[..n], key, i) {
        }
      }
    }
  }

  /** Reading any spelling of a path returns the bytes of the last upload under any spelling of it. */
  lemma ReadIsLastUpload(uploads: seq<Upload>, path: string)
    requires Built(uploads).Ok?
    ensures var r := Read(Built(uploads).value, path);
      match Normal(path)
      case Err(e) => r == Err(e)
      case Ok(key) =>
        && (r.Ok? <==> exists i: nat :: LastFor(uploads, key, i))
        && (forall i: nat :: LastFor(uploads, key, i) ==> r == Ok(uploads[i].data))
        && (r.Err? ==> r.error == NotFound(key))
  {
    hide Normal, Built;
    if Normal(path).Ok? {
      LastUploadWins(uploads, Normal(path).value);
    }
  }

  /** The mode bits reported are those of the same upload. */
  lemma ExecutableIsLastUpload(uploads: seq<Upload>, path: string)
    requires Built(uploads).Ok?
    ensures var r := IsExecutable(Built(uploads).value, path);
      match Normal(path)
      case Err(e) => r == Err(e)
      case Ok(key) =>
        && (r.Ok? <==> exists i: nat :: LastFor(uploads, key, i))
        && (forall i: nat :: LastFor(uploads, key, i) ==> r == Ok(ModeIsExecutable(uploads[i].mode)))
        && (r.Err? ==> r.error == NotFound(key))
  {
    hide Normal, Built, ModeIsExecutable;
    if Normal(path).Ok? {
      LastUploadWins(uploads, Normal(path).value);
    }
  }

  // Sizes.

  /** Bytes stored under the given keys. */
  function Stored(entries: Entries, keys: seq<string>): nat {
    if keys == [] then 0
    else Stored(entries, keys[..|keys| - 1]) + if keys[|keys| - 1] in entries then |entries[keys[|keys| - 1]].data| else 0
  }

  function TotalBytes(entries: Entries): nat {
    Stored(entries, Keys(entries, entries.Keys))
  }

  /** The total is a sum over the keys in any order: removing one key removes its bytes. */
  ghost function Sum(entries: Entries, keys: set<string>): nat
    requires keys <= entries.Keys
  {
    if keys == {} then 0
    else var k :| k in keys; |entries[k].data| + Sum(entries, keys - {k})
  }

  lemma {:induction false} SumSplit(entries: Entries, keys: set<string>, k: string)
    requires keys <= entries.Keys && k in keys
    ensures Sum(entries, keys) == |entries[k].data| + Sum(entries, keys - {k})
    decreases |keys|
  {
    var j :| j in keys && Sum(entries, keys) == |entries[j].data| + Sum(entries, keys - {j});
    if j != k {
      SumSplit(entries, keys - {j}, k);
      SumSplit(entries, keys - {k}, j);
      assert keys - {j} - {k} == keys - {k} - {j};
    }
  }

  lemma {:induction false} SumFrame(a: Entries, b: Entries, keys: set<string>)
    requires keys <= a.Keys && keys <= b.Keys && forall k :: k in keys ==> a[k] == b[k]
    ensures Sum(a, keys) == Sum(b, keys)
    decreases |keys|
  {
    if keys != {} {
      var k :| k in keys && Sum(a, keys) == |a[k].data| + Sum(a, keys - {k});
      SumSplit(b, keys, k);
      SumFrame(a, b, keys - {k});
    }
  }

  lemma {:induction false} StoredIsSum(entries: Entries, keys: seq<string>, all: set<string>)
    requires Increasing(LexBelow, keys) && (forall k :: k in keys <==> k in all) && all <= entries.Keys
    ensures Stored(entries, keys) == Sum(entries, all)
    decreases |keys|
  {
    LexIsTotal();
    if keys != [] {
      var n := |keys| - 1;
      var k := keys[n];
      assert k in keys;
      forall x ensures x in keys[..n] <==> x in all - {k} {
        if x in keys[..n] {
          var i :| 0 <= i < n && keys[i] == x;
          assert LexBelow(keys[i], keys[n]);
          assert x in keys;
        }
        if x in all - {k} {
          assert x in keys;
        }
      }
      StoredIsSum(entries, keys[..n], all - {k});
      SumSplit(entries, all, k);
    } else {
      assert all == {} by {
        assert forall k :: k in all ==> k in keys;
      }
    }
  }

  lemma TotalIsSum(entries: Entries)
    ensures TotalBytes(entries) == Sum(entries, entries.Keys)
  {
    LexIsTotal();
    assert entries.Keys * entries.Keys == entries.Keys;
    StoredIsSum(entries, Keys(entries, entries.Keys), entries.Keys);
  }

  function Uploaded(uploads: seq<Upload>): nat {
    if uploads == [] then 0 else Uploaded(uploads[..|uploads| - 1]) + |uploads[|uploads| - 1].data|
  }

  /** Bytes that a later upload under the same key replaced. */
  function Replaced(uploads: seq<Upload>): nat
    requires Built(uploads).Ok?
  {
    if uploads == [] then 0
    else
      var n := |uploads| - 1;
      var entries, key := Built(uploads[..n]).value, Normal(uploads[n].path).value;
      Replaced(uploads[..n]) + if key in entries then |entries[key].data| else 0
  }

  lemma PutSum(entries: Entries, key: string, e: TarEntry)
    ensures Sum(entries[key := e], entries[key := e].Keys) + (if key in entries then |entries[key].data| else 0)
         == Sum(entries, entries.Keys) + |e.data|
  {
    var after := entries[key := e];
    var others := entries.Keys - {key};
    SumSplit(after, after.Keys, key);
    assert after.Keys - {key} == others;
    SumFrame(entries, after, others);
    if key in entries {
      SumSplit(entries, entries.Keys, key);
    } else {
      assert others == entries.Keys;
    }
  }

  /** Conservation: what is stored and what was replaced together are what was uploaded. */
  lemma {:induction false} BytesAreConserved(uploads: seq<Upload>)
    requires Built(uploads).Ok?
    ensures TotalBytes(Built(uploads).value) + Replaced(uploads) == Uploaded(uploads)
  {
    hide Normal;
    var entries := Built(uploads).value;
    TotalIsSum(entries);
    if uploads != [] {
      var n := |uploads| - 1;
      BytesAreConserved(uploads[..n]);
      TotalIsSum(Built(uploads[..n]).value);
      PutSum(Built(uploads[..n]).value, Normal(uploads[n].path).value, TarEntry(uploads[n].mode, uploads[n].data));
    }
  }

  /** With all names different nothing is replaced. */
  lemma {:induction false} DistinctNamesReplaceNothing(uploads: seq<Upload>)
    requires Built(uploads).Ok?
    requires forall i, j :: 0 <= i < j < |uploads| ==> Normal(uploads[i].path) != Normal(uploads[j].path)
    ensures Replaced(uploads) == 0 && TotalBytes(Built(uploads).value) == Uploaded(uploads)
  {
    hide Normal;
    BytesAreConserved(uploads);
    if uploads != [] {
      var n := |uploads| - 1;
      DistinctNamesReplaceNothing(uploads[..n]);
      var key := Normal(uploads[n].path).value;
      LastUploadWins(uploads[..n], key);
      forall i: nat | i < n ensures Normal(uploads[..n][i].path) != Ok(key) {
        assert uploads[..n][i] == uploads[i];
      }
    }
  }
}
