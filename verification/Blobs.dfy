/** The blob store: keys, and puts as steps on a file map that a crash may stop anywhere. */
module Blobs {
  import opened Prelude
  import opened Text

  predicate IsHexDigit(c: char) {
    '0' <= c <= '9' || 'a' <= c <= 'f'
  }

  predicate IsHex64(s: string) {
    |s| == 64 && forall c :: c in s ==> IsHexDigit(c)
  }

  type Sha256Hash = s: string | IsHex64(s) witness seq(64, _ => '0')

  /** `from_hex`: a lowercase digest, or nothing. */
  function FromHex(value: string): Option<Sha256Hash> {
    if IsHex64(value) then Some(value) else None
  }

  /** The text of a ULID: 26 characters, digits and capitals. */
  predicate IsUlid(s: string) {
    |s| == 26 && forall c :: c in s ==> '0' <= c <= '9' || 'A' <= c <= 'Z'
  }

  type Ulid = s: string | IsUlid(s) witness seq(26, _ => '0')

  datatype BlobKind = Source(hash: Sha256Hash) | Log(submission: Ulid, attempt: u32)

  const DIGITS: string := "0123456789"

  function Decimal(n: nat): (r: string)
    ensures r != "" && forall c :: c in r ==> '0' <= c <= '9'
  {
    if n < 10 then [DIGITS[n]] else Decimal(n / 10) + [DIGITS[n % 10]]
  }

  function DigitValue(c: char): int {
    c as int - '0' as int
  }

  /** Reading a decimal back. */
  function Value(s: string): int {
    if s == "" then 0 else Value(s[..|s| - 1]) * 10 + DigitValue(s[|s| - 1])
  }

  lemma DigitOf(d: nat)
    requires d < 10
    ensures DigitValue(DIGITS[d]) == d
  {
    assert DIGITS[0] == '0' && DIGITS[1] == '1' && DIGITS[2] == '2' && DIGITS[3] == '3' && DIGITS[4] == '4';
    assert DIGITS[5] == '5' && DIGITS[6] == '6' && DIGITS[7] == '7' && DIGITS[8] == '8' && DIGITS[9] == '9';
  }

  lemma {:induction false} DecimalReadsBack(n: nat)
    ensures Value(Decimal(n)) == n
  {
    DigitOf(n % 10);
    if n < 10 {
      assert Value([DIGITS[n]]) == Value("") * 10 + DigitValue(DIGITS[n]);
    } else {
      DecimalReadsBack(n / 10);
      var s := Decimal(n);
      assert s[..|s| - 1] == Decimal(n / 10) && s[|s| - 1] == DIGITS[n % 10];
    }
  }

  /** No attempt has two spellings: a leading zero is the whole of 0. */
  lemma {:induction false} DecimalIsCanonical(n: nat)
    ensures Decimal(n)[0] == '0' ==> n == 0 && |Decimal(n)| == 1
  {
    assert DIGITS[0] == '0' && DIGITS[1] == '1' && DIGITS[2] == '2' && DIGITS[3] == '3' && DIGITS[4] == '4';
    assert DIGITS[5] == '5' && DIGITS[6] == '6' && DIGITS[7] == '7' && DIGITS[8] == '8' && DIGITS[9] == '9';
    if n >= 10 {
      DecimalIsCanonical(n / 10);
      assert Decimal(n)[0] == Decimal(n / 10)[0];
    }
  }

  /** The store-relative key. */
  function Key(kind: BlobKind): string {
    match kind
    case Source(hash) => "blobs/" + hash
    case Log(submission, attempt) => "logs/" + submission + "/" + Decimal(attempt as int)
  }

  /** A key taken apart: the namespace, then the digest, or the submission and its attempt in decimal. */
  lemma KeyComponents(kind: BlobKind)
    ensures match kind
      case Source(hash) => Split(Key(kind), '/') == ["blobs", hash]
      case Log(submission, attempt) =>
        var parts := Split(Key(kind), '/');
        && |parts| == 3 && parts[0] == "logs" && parts[1] == submission
        && parts[2] != "" && Value(parts[2]) == attempt as int && (parts[2][0] == '0' ==> attempt == 0 && |parts[2]| == 1)
  {
    match kind
    case Source(hash) =>
      assert IsHex64(hash);
      SplitSepFree("blobs", '/');
      SplitSepFree(hash, '/');
      SplitConcat("blobs", hash, '/');
      assert Key(kind) == "blobs" + ['/'] + hash;
    case Log(submission, attempt) =>
      var n := Decimal(attempt as int);
      assert IsUlid(submission);
      SplitSepFree("logs", '/');
      SplitSepFree(submission, '/');
      SplitSepFree(n, '/');
      SplitConcat(submission, n, '/');
      SplitConcat("logs", submission + ['/'] + n, '/');
      assert Key(kind) == "logs" + ['/'] + (submission + ['/'] + n);
      DecimalReadsBack(attempt as int);
      DecimalIsCanonical(attempt as int);
  }

  /** A digest is 64 of these digits, and is taken as it is. */
  lemma HexIsLowercase(value: string)
    ensures match FromHex(value)
      case Some(hash) => hash == value && |value| == 64 && forall c :: c in value ==> c in "0123456789abcdef"
      case None => |value| != 64 || exists c :: c in value && c !in "0123456789abcdef"
  {
    forall c ensures IsHexDigit(c) <==> c in "0123456789abcdef" {
      HexDigits(c);
    }
  }

  lemma HexDigits(c: char)
    ensures IsHexDigit(c) <==> c in "0123456789abcdef"
  {
  }

  function PathFor(root: string, kind: BlobKind): string {
    root + "/" + Key(kind)
  }

  // `Path::with_extension`.

  function FileName(path: string): string {
    var parts := Split(path, '/');
    parts[|parts| - 1]
  }

  /** The name up to its last dot; a name without a dot, or with only a leading one, is all stem. */
  function Stem(name: string): string {
    var parts := Split(name, '.');
    if |parts| == 1 || (|parts| == 2 && parts[0] == "") then name
    else Join(parts[..|parts| - 1], '.')
  }

  lemma FileNameIsSuffix(path: string)
    ensures |FileName(path)| <= |path| && FileName(path) == path[|path| - |FileName(path)|..]
  {
    var parts := Split(path, '/');
    var n := |parts| - 1;
    JoinSplit(path, '/');
    if n > 0 {
      JoinConcat(parts[..n], [parts[n]], '/');
      assert parts[..n] + [parts[n]] == parts;
      assert Join([parts[n]], '/') == parts[n];
    } else {
      assert parts == [parts[n]];
    }
    hide Split, Join;
  }

  function WithExtension(path: string, ext: string): string {
    FileNameIsSuffix(path);
    var name := FileName(path);
    path[..|path| - |name|] + Stem(name) + "." + ext
  }

  function TmpFor(root: string, kind: BlobKind): string {
    WithExtension(PathFor(root, kind), "tmp")
  }

  function LastPart(kind: BlobKind): string {
    match kind case Source(hash) => hash case Log(_, attempt) => Decimal(attempt as int)
  }

  lemma LastPartIsPlain(kind: BlobKind)
    ensures LastPart(kind) != "" && forall c :: c in LastPart(kind) ==> IsHexDigit(c)
  {
    match kind
    case Source(hash) => assert IsHex64(hash);
    case Log(_, _) =>
  }

  function Folder(kind: BlobKind): string {
    match kind case Source(_) => "blobs" case Log(submission, _) => "logs/" + submission
  }

  lemma PathShape(root: string, kind: BlobKind)
    ensures PathFor(root, kind) == (root + "/" + Folder(kind)) + ['/'] + LastPart(kind)
  {
    var dir, name := root + "/" + Folder(kind), LastPart(kind);
    assert Key(kind) == Folder(kind) + "/" + name;
    assert root + "/" + (Folder(kind) + "/" + name) == dir + ['/'] + name;
  }

  /** A file name without a dot has no extension to replace. */
  lemma PlainNameExtends(dir: string, name: string, ext: string)
    requires '/' !in name && '.' !in name
    ensures WithExtension(dir + ['/'] + name, ext) == dir + ['/'] + name + "." + ext
  {
    var path := dir + ['/'] + name;
    SplitConcat(dir, name, '/');
    SplitSepFree(name, '/');
    SplitSepFree(name, '.');
    hide Split;
    assert FileName(path) == name && Stem(name) == name;
    FileNameIsSuffix(path);
    assert path[..|path| - |name|] == dir + ['/'];
  }

  /** The temporary name is the final name with ".tmp" after it. */
  lemma TmpIsPathDotTmp(root: string, kind: BlobKind)
    ensures TmpFor(root, kind) == PathFor(root, kind) + ".tmp"
  {
    var dir, name := root + "/" + Folder(kind), LastPart(kind);
    PathShape(root, kind);
    LastPartIsPlain(kind);
    PlainNameExtends(dir, name, "tmp");
    hide WithExtension, PathFor, Folder, LastPart;
    assert PathFor(root, kind) + "." + "tmp" == PathFor(root, kind) + ".tmp";
  }

  lemma KeyHead(kind: BlobKind)
    ensures |Key(kind)| > 32 && (Key(kind)[0] == 'b' <==> kind.Source?)
  {
    match kind
    case Source(hash) => assert IsHex64(hash);
    case Log(submission, _) => assert IsUlid(submission);
  }

  /** Different kinds have different keys, decimal attempt included. */
  lemma KeyInjective(a: BlobKind, b: BlobKind)
    ensures Key(a) == Key(b) ==> a == b
  {
    KeyHead(a);
    KeyHead(b);
    if Key(a) == Key(b) {
      match (a, b)
      case (Source(h), Source(k)) =>
        assert h == Key(a)[6..] && k == Key(b)[6..];
      case (Log(s, m), Log(t, n)) =>
        assert IsUlid(s) && IsUlid(t);
        assert s == Key(a)[5..31] && t == Key(b)[5..31];
        assert Decimal(m as int) == Key(a)[32..] && Decimal(n as int) == Key(b)[32..];
        DecimalReadsBack(m as int);
        DecimalReadsBack(n as int);
      case _ =>
    }
  }

  /** Under "blobs/" the keys are exactly the digests that `from_hex` takes. */
  lemma SourceKeysAreDigests(name: string)
    ensures FromHex(name).Some? <==> exists kind: BlobKind :: Key(kind) == "blobs/" + name
  {
    if FromHex(name).Some? {
      assert Key(Source(name)) == "blobs/" + name;
    }
    if kind: BlobKind :| Key(kind) == "blobs/" + name {
      KeyHead(kind);
      assert ("blobs/" + name)[0] == 'b';
      assert name == ("blobs/" + name)[6..] && kind.hash == Key(kind)[6..];
      assert IsHex64(kind.hash);
    }
  }

  lemma PathInjective(root: string, a: BlobKind, b: BlobKind)
    ensures PathFor(root, a) == PathFor(root, b) ==> a == b
  {
    KeyInjective(a, b);
    hide Key;
    assert PathFor(root, a)[|root| + 1..] == Key(a) && PathFor(root, b)[|root| + 1..] == Key(b);
  }

  lemma LastChar(root: string, kind: BlobKind)
    ensures PathFor(root, kind) != "" && IsHexDigit(PathFor(root, kind)[|PathFor(root, kind)| - 1])
  {
    var name := LastPart(kind);
    PathShape(root, kind);
    LastPartIsPlain(kind);
    hide PathFor, LastPart, Folder;
    var path := PathFor(root, kind);
    assert path[|path| - 1] == name[|name| - 1] && name[|name| - 1] in name;
  }

  /** Final keys and temporary names are all different files. */
  lemma PathsAreDistinct(root: string, a: BlobKind, b: BlobKind)
    ensures PathFor(root, a) == PathFor(root, b) ==> a == b
    ensures TmpFor(root, a) == TmpFor(root, b) ==> a == b
    ensures TmpFor(root, a) != PathFor(root, b)
  {
    var p, q := PathFor(root, a), PathFor(root, b);
    TmpIsPathDotTmp(root, a);
    TmpIsPathDotTmp(root, b);
    PathInjective(root, a, b);
    LastChar(root, b);
    hide PathFor, TmpFor;
    var t, u := p + ".tmp", q + ".tmp";
    assert t[..|t| - 4] == p && u[..|u| - 4] == q;
    assert t[|t| - 1] == 'p';
  }

  // Puts as steps.

  /** A file, whatever names lead to it: the kind it was opened for, and a serial number. */
  datatype FileId = FileId(kind: BlobKind, number: nat)

  /** A put under way: `file` is None before the temporary file is opened. */
  datatype Writer = Writer(kind: BlobKind, bytes: Bytes, file: Option<FileId>, written: nat)

  /** Names and files, the puts under way, and the history of puts requested and completed. */
  datatype State = State(
    names: map<string, FileId>, contents: map<FileId, Bytes>, serial: nat,
    active: map<nat, Writer>, requested: set<(BlobKind, Bytes)>, completed: map<BlobKind, Bytes>)

  datatype Action =
    | Start(writer: nat, kind: BlobKind, bytes: Bytes)
    | OpenTmp(writer: nat)
    | WriteMore(writer: nat, count: nat)
    | Rename(writer: nat)
    | Fail(writer: nat)    // an I/O error ends this put
    | Crash                // the process dies; the files stay

  const FRESH: State := State(map[], map[], 0, map[], {}, map[])

  /** Writing `bytes[from..to]` at offset `from`; a file shorter than that is filled up with zeros. */
  function Overlay(before: Bytes, bytes: Bytes, from: nat, to: nat): Bytes
    requires from <= to <= |bytes|
  {
    (if |before| >= from then before[..from] else before + seq(from - |before|, _ => 0))
      + bytes[from..to]
      + (if |before| > to then before[to..] else [])
  }

  /** The file that opening this name for writing gives: an existing one is taken over, emptied. */
  function FileFor(root: string, s: State, kind: BlobKind): FileId {
    if TmpFor(root, kind) in s.names then s.names[TmpFor(root, kind)] else FileId(kind, s.serial)
  }

  /** One step of any of the writers, as many as there are; a step that is not enabled does nothing. */
  function Next(root: string, s: State, action: Action): State {
    match action
    case Crash => s.(active := map[])
    case Start(w, k, bytes) =>
      if w in s.active then s
      else s.(active := s.active[w := Writer(k, bytes, None, 0)], requested := s.requested + {(k, bytes)})
    case _ => if action.writer in s.active then Serve(root, s, action, s.active[action.writer]) else s
  }

  function Serve(root: string, s: State, action: Action, put: Writer): State
    requires !action.Crash? && !action.Start?
  {
    var w, path, tmp := action.writer, PathFor(root, put.kind), TmpFor(root, put.kind);
    match action
    case OpenTmp(_) =>
      if put.file.Some? then s
      else
        var f := FileFor(root, s, put.kind);
        s.(names := s.names[tmp := f], contents := s.contents[f := []], serial := s.serial + 1,
           active := s.active[w := put.(file := Some(f))])
    case WriteMore(_, count) =>
      if put.file.None? || put.file.value !in s.contents || put.written + count > |put.bytes| then s
      else
        var f, n := put.file.value, put.written + count;
        s.(contents := s.contents[f := Overlay(s.contents[f], put.bytes, put.written, n)],
           active := s.active[w := put.(written := n)])
    case Rename(_) =>
      if put.file.None? || put.written != |put.bytes| then s
      else if tmp !in s.names then s.(active := s.active - {w})
      else s.(names := (s.names - {tmp})[path := s.names[tmp]], active := s.active - {w},
              completed := s.completed[put.kind := put.bytes])
    case Fail(_) => s.(active := s.active - {w})
  }

  function Run(root: string, actions: seq<Action>): State {
    if actions == [] then FRESH else Next(root, Run(root, actions[..|actions| - 1]), actions[|actions| - 1])
  }

  function ReadBack(root: string, s: State, k: BlobKind): Option<Bytes> {
    var path := PathFor(root, k);
    if path in s.names && s.names[path] in s.contents then Some(s.contents[s.names[path]]) else None
  }

  // What holds of every disk, even with several writers on one key.

  /** No two names lead to one file, and every open file is one made for the writer's own kind. */
  ghost predicate DiskOk(root: string, s: State) {
    && (forall p, q :: p in s.names && q in s.names && p != q ==> s.names[p] != s.names[q])
    && (forall p :: p in s.names ==> s.names[p] in s.contents && s.names[p].number < s.serial)
    && (forall k :: TmpFor(root, k) in s.names ==> s.names[TmpFor(root, k)].kind == k)
    && (forall w :: w in s.active && s.active[w].file.Some? ==>
          s.active[w].file.value.kind == s.active[w].kind && s.active[w].file.value in s.contents)
  }

  lemma NamesApart(root: string, k: BlobKind)
    ensures forall j :: (TmpFor(root, j) == TmpFor(root, k) ==> j == k) && TmpFor(root, j) != PathFor(root, k)
    ensures forall j :: (PathFor(root, j) == PathFor(root, k) ==> j == k) && TmpFor(root, k) != PathFor(root, j)
  {
    forall j
      ensures (TmpFor(root, j) == TmpFor(root, k) ==> j == k) && TmpFor(root, j) != PathFor(root, k)
      ensures (PathFor(root, j) == PathFor(root, k) ==> j == k) && TmpFor(root, k) != PathFor(root, j)
    {
      PathsAreDistinct(root, j, k);
      PathsAreDistinct(root, k, j);
    }
  }

  lemma ServeKeepsDisk(root: string, s: State, action: Action)
    requires DiskOk(root, s) && !action.Crash? && !action.Start? && action.writer in s.active
    ensures DiskOk(root, Next(root, s, action))
  {
    NamesApart(root, s.active[action.writer].kind);
    hide PathFor, TmpFor, Overlay;
  }

  lemma {:induction false} EveryDiskOk(root: string, actions: seq<Action>)
    ensures DiskOk(root, Run(root, actions))
  {
    if actions != [] {
      var n := |actions| - 1;
      var s, last := Run(root, actions[..n]), actions[n];
      EveryDiskOk(root, actions[..n]);
      if !last.Crash? && !last.Start? && last.writer in s.active {
        ServeKeepsDisk(root, s, last);
      }
      hide PathFor, TmpFor, Serve;
    }
  }

  // One writer of a key at a time.

  ghost predicate Idle(s: State, k: BlobKind) {
    forall w :: w in s.active ==> s.active[w].kind != k
  }

  ghost predicate StartsAlone(s: State, action: Action, k: BlobKind) {
    action.Start? && action.kind == k ==> Idle(s, k)
  }

  /** Whenever a put of this key starts, no other put of it is under way. */
  ghost predicate Exclusive(root: string, actions: seq<Action>, k: BlobKind) {
    forall i :: 0 <= i < |actions| ==> StartsAlone(Run(root, actions[..i]), actions[i], k)
  }

  /** The writer's file is the one its temporary name leads to, and holds the first `written` bytes. */
  ghost predicate WriterOk(root: string, s: State, put: Writer) {
    && (put.kind, put.bytes) in s.requested
    && (put.file.Some? ==>
          && put.written <= |put.bytes|
          && TmpFor(root, put.kind) in s.names && s.names[TmpFor(root, put.kind)] == put.file.value
          && put.file.value in s.contents && s.contents[put.file.value] == put.bytes[..put.written])
    && (put.file.None? ==> put.written == 0)
  }

  /** The key reads as its last completed put, which somebody requested. */
  ghost predicate Whole(root: string, s: State, k: BlobKind) {
    && ReadBack(root, s, k) == (if k in s.completed then Some(s.completed[k]) else None)
    && (k in s.completed ==> (k, s.completed[k]) in s.requested)
  }

  ghost predicate KindOk(root: string, s: State, k: BlobKind) {
    && Whole(root, s, k)
    && (PathFor(root, k) in s.names ==> s.names[PathFor(root, k)].kind == k)
    && (forall w :: w in s.active && s.active[w].kind == k ==> WriterOk(root, s, s.active[w]))
    && (forall v, w :: v in s.active && w in s.active && s.active[v].kind == k && s.active[w].kind == k ==> v == w)
  }

  /** What the step of one kind leaves of another: its names, its files, its writers, its history. */
  ghost predicate SameFor(root: string, s: State, s': State, k: BlobKind) {
    var path, tmp := PathFor(root, k), TmpFor(root, k);
    && (path in s'.names <==> path in s.names) && (path in s.names ==> s'.names[path] == s.names[path])
    && (tmp in s'.names <==> tmp in s.names) && (tmp in s.names ==> s'.names[tmp] == s.names[tmp])
    && (forall f: FileId :: f.kind == k ==>
          (f in s'.contents <==> f in s.contents) && (f in s.contents ==> s'.contents[f] == s.contents[f]))
    && (forall w :: w in s'.active && s'.active[w].kind == k ==> w in s.active && s'.active[w] == s.active[w])
    && (k in s'.completed <==> k in s.completed) && (k in s.completed ==> s'.completed[k] == s.completed[k])
    && s.requested <= s'.requested
  }

  lemma OtherKindOpens(root: string, s: State, action: Action, k: BlobKind)
    requires DiskOk(root, s) && action.OpenTmp? && action.writer in s.active
    requires s.active[action.writer].kind != k
    ensures SameFor(root, s, Next(root, s, action), k)
  {
    NamesApart(root, k);
    hide PathFor, TmpFor;
  }

  lemma OtherKindWrites(root: string, s: State, action: Action, k: BlobKind)
    requires DiskOk(root, s) && action.WriteMore? && action.writer in s.active
    requires s.active[action.writer].kind != k
    ensures SameFor(root, s, Next(root, s, action), k)
  {
    hide PathFor, TmpFor, Overlay;
  }

  lemma OtherKindRenames(root: string, s: State, action: Action, k: BlobKind)
    requires DiskOk(root, s) && action.Rename? && action.writer in s.active
    requires s.active[action.writer].kind != k
    ensures SameFor(root, s, Next(root, s, action), k)
  {
    NamesApart(root, k);
    hide PathFor, TmpFor, DiskOk;
  }

  lemma OtherKindUntouched(root: string, s: State, action: Action, k: BlobKind)
    requires DiskOk(root, s) && !action.Crash? && !action.Start? && action.writer in s.active
    requires s.active[action.writer].kind != k
    ensures SameFor(root, s, Next(root, s, action), k)
  {
    match action
    case OpenTmp(_) => OtherKindOpens(root, s, action, k);
    case WriteMore(_, _) => OtherKindWrites(root, s, action, k);
    case Rename(_) => OtherKindRenames(root, s, action, k);
    case Fail(_) => { hide PathFor, TmpFor, DiskOk; }
  }

  lemma SameKeeps(root: string, s: State, s': State, k: BlobKind)
    requires DiskOk(root, s) && KindOk(root, s, k) && SameFor(root, s, s', k)
    ensures KindOk(root, s', k)
  {
    hide PathFor, TmpFor;
  }

  lemma OwnKindOpens(root: string, s: State, action: Action)
    requires DiskOk(root, s) && action.OpenTmp? && action.writer in s.active
    requires KindOk(root, s, s.active[action.writer].kind)
    ensures KindOk(root, Next(root, s, action), s.active[action.writer].kind)
  {
    var put := s.active[action.writer];
    NamesApart(root, put.kind);
    hide PathFor, TmpFor;
    assert put.bytes[..0] == [];
  }

  /** Writing on from where one stopped. */
  lemma OverlayExtends(bytes: Bytes, from: nat, to: nat)
    requires from <= to <= |bytes|
    ensures Overlay(bytes[..from], bytes, from, to) == bytes[..to]
  {
    assert bytes[..from] + bytes[from..to] == bytes[..to];
  }

  lemma OwnKindWrites(root: string, s: State, action: Action)
    requires DiskOk(root, s) && action.WriteMore? && action.writer in s.active
    requires KindOk(root, s, s.active[action.writer].kind)
    ensures KindOk(root, Next(root, s, action), s.active[action.writer].kind)
  {
    var put := s.active[action.writer];
    NamesApart(root, put.kind);
    hide PathFor, TmpFor;
    assert WriterOk(root, s, put);
    if put.file.Some? && put.written + action.count <= |put.bytes| {
      var f, n := put.file.value, put.written + action.count;
      OverlayExtends(put.bytes, put.written, n);
      assert PathFor(root, put.kind) in s.names ==> s.names[PathFor(root, put.kind)] != f;
      hide DiskOk, Overlay;
      assert Next(root, s, action)
        == s.(contents := s.contents[f := put.bytes[..n]], active := s.active[action.writer := put.(written := n)]);
      hide Next;
    }
  }

  lemma OwnKindRenames(root: string, s: State, action: Action)
    requires DiskOk(root, s) && action.Rename? && action.writer in s.active
    requires KindOk(root, s, s.active[action.writer].kind)
    ensures KindOk(root, Next(root, s, action), s.active[action.writer].kind)
  {
    var put := s.active[action.writer];
    NamesApart(root, put.kind);
    hide PathFor, TmpFor;
    assert WriterOk(root, s, put);
    assert put.bytes[..|put.bytes|] == put.bytes;
  }

  lemma OwnKindMoved(root: string, s: State, action: Action)
    requires DiskOk(root, s) && !action.Crash? && !action.Start? && action.writer in s.active
    requires KindOk(root, s, s.active[action.writer].kind)
    ensures KindOk(root, Next(root, s, action), s.active[action.writer].kind)
  {
    match action
    case OpenTmp(_) => OwnKindOpens(root, s, action);
    case WriteMore(_, _) => OwnKindWrites(root, s, action);
    case Rename(_) => OwnKindRenames(root, s, action);
    case Fail(_) => { hide PathFor, TmpFor, DiskOk; }
  }

  lemma StartKeeps(root: string, s: State, action: Action, k: BlobKind)
    requires KindOk(root, s, k) && action.Start? && StartsAlone(s, action, k)
    ensures KindOk(root, Next(root, s, action), k)
  {
    hide PathFor, TmpFor;
  }

  /** Any step of any writer keeps a key whole, if the puts of that key do not overlap; other keys may do as they like. */
  lemma NextKeepsKind(root: string, s: State, action: Action, k: BlobKind)
    requires DiskOk(root, s) && KindOk(root, s, k) && StartsAlone(s, action, k)
    ensures KindOk(root, Next(root, s, action), k)
  {
    hide PathFor, TmpFor, Serve, DiskOk;
    if action.Crash? {
    } else if action.Start? {
      StartKeeps(root, s, action, k);
    } else if action.writer in s.active {
      if s.active[action.writer].kind == k {
        OwnKindMoved(root, s, action);
      } else {
        OtherKindUntouched(root, s, action, k);
        SameKeeps(root, s, Next(root, s, action), k);
      }
    }
  }

  lemma ExclusivePrefix(root: string, actions: seq<Action>, n: nat, k: BlobKind)
    requires n <= |actions| && Exclusive(root, actions, k)
    ensures Exclusive(root, actions[..n], k)
  {
    hide Run, Idle;
    forall i | 0 <= i < n ensures StartsAlone(Run(root, actions[..n][..i]), actions[..n][i], k) {
      assert actions[..n][..i] == actions[..i];
    }
  }

  lemma {:induction false} EveryKindOk(root: string, actions: seq<Action>, k: BlobKind)
    requires Exclusive(root, actions, k)
    ensures KindOk(root, Run(root, actions), k)
  {
    hide Next, StartsAlone, DiskOk;
    if actions != [] {
      var n := |actions| - 1;
      ExclusivePrefix(root, actions, n, k);
      EveryKindOk(root, actions[..n], k);
      EveryDiskOk(root, actions[..n]);
      assert StartsAlone(Run(root, actions[..n]), actions[n], k);
      NextKeepsKind(root, Run(root, actions[..n]), actions[n], k);
    } else {
      hide PathFor, TmpFor;
    }
  }

  /**
   Crash atomicity: whatever the interleaving of puts and wherever crashes fall, a key whose own puts do not
   overlap reads as its last completed put, in full, or as nothing; a torn write is never visible.
   */
  lemma PutsAreAtomic(root: string, actions: seq<Action>, k: BlobKind)
    requires Exclusive(root, actions, k)
    ensures Whole(root, Run(root, actions), k)
  {
    EveryKindOk(root, actions, k);
    hide Run, Whole, WriterOk;
  }

  /** A crash takes no key and leaves nobody at work: every key reads as before, and the next put of any key starts alone. */
  lemma CrashLosesNothing(root: string, actions: seq<Action>, k: BlobKind)
    ensures var s, s' := Run(root, actions), Run(root, actions + [Crash]);
      ReadBack(root, s', k) == ReadBack(root, s, k) && Idle(s', k)
  {
    RunMore(root, actions, Crash);
    hide Run, PathFor;
  }

  lemma RunMore(root: string, actions: seq<Action>, a: Action)
    ensures Run(root, actions + [a]) == Next(root, Run(root, actions), a)
  {
    hide Next;
    assert (actions + [a])[..|actions|] == actions;
  }

  // Overlapping puts of one key.

  /** Some way the steps may go on, with no further put started, leaves the key not whole. */
  ghost predicate MayTear(root: string, actions: seq<Action>, k: BlobKind) {
    exists more: seq<Action> :: (forall a :: a in more ==> !a.Start?) && !Whole(root, Run(root, actions + more), k)
  }

  lemma RunFour(root: string, actions: seq<Action>, a: Action, b: Action, c: Action, d: Action)
    ensures Run(root, actions + [a, b, c, d]) == Next(root, Next(root, Next(root, Next(root, Run(root, actions), a), b), c), d)
  {
    hide *;
    RunMore(root, actions, a);
    RunMore(root, actions + [a], b);
    RunMore(root, actions + [a] + [b], c);
    RunMore(root, actions + [a] + [b] + [c], d);
    assert actions + [a] + [b] + [c] + [d] == actions + [a, b, c, d];
  }

  /** Two puts of one key under way: `v` is open under the temporary name or not yet, `w` has not opened. */
  ghost predicate Overlap(root: string, s: State, v: nat, w: nat) {
    && v != w && v in s.active && w in s.active && s.active[v].kind == s.active[w].kind
    && WriterOk(root, s, s.active[v])
    && s.active[w].file.None? && s.active[w].written == 0
  }

  /** Where two overlapping puts stand when the first has written all it has. */
  ghost predicate Filled(root: string, s: State, v: nat, w: nat, put: Writer, other: Writer) {
    && v != w && v in s.active && w in s.active && s.active[w] == other
    && s.active[v].file.Some? && s.active[v] == Writer(put.kind, put.bytes, s.active[v].file, |put.bytes|)
    && TmpFor(root, put.kind) in s.names && s.names[TmpFor(root, put.kind)] == s.active[v].file.value
  }

  lemma Fills(root: string, s: State, v: nat, w: nat)
    requires Overlap(root, s, v, w)
    ensures var put := s.active[v];
      Filled(root, Next(root, Next(root, s, OpenTmp(v)), WriteMore(v, |put.bytes| - put.written)), v, w, put, s.active[w])
  {
    hide PathFor, TmpFor, Overlay;
    var put := s.active[v];
    var s1 := Next(root, s, OpenTmp(v));
    var f := s1.active[v].file.value;
    assert s1.names[TmpFor(root, put.kind)] == f && s1.active[v] == put.(file := Some(f)) && s1.active[w] == s.active[w];
  }

  /** The second opens, and empties, the file the first has filled; then the first renames it into place. */
  lemma FilledThenEmptied(root: string, s: State, v: nat, w: nat)
    requires Overlap(root, s, v, w) && s.active[v].bytes != []
    ensures var put := s.active[v];
      var s' := Next(root, Next(root, Next(root, Next(root, s, OpenTmp(v)), WriteMore(v, |put.bytes| - put.written)), OpenTmp(w)), Rename(v));
      !Whole(root, s', put.kind)
  {
    Fills(root, s, v, w);
    var put := s.active[v];
    var s2 := Next(root, Next(root, s, OpenTmp(v)), WriteMore(v, |put.bytes| - put.written));
    EmptiedThenRenamed(root, s2, v, w, put, s.active[w]);
    hide Next, Filled, Whole;
  }

  lemma EmptiedThenRenamed(root: string, s: State, v: nat, w: nat, put: Writer, other: Writer)
    requires Filled(root, s, v, w, put, other) && put.bytes != [] && other.kind == put.kind && other.file.None?
    ensures !Whole(root, Next(root, Next(root, s, OpenTmp(w)), Rename(v)), put.kind)
  {
    hide PathFor, TmpFor, Overlay;
    var f := s.active[v].file.value;
    var s3 := Next(root, s, OpenTmp(w));
    assert s3.contents[f] == [] && s3.names[TmpFor(root, put.kind)] == f && s3.active[v] == s.active[v];
    var s4 := Next(root, s3, Rename(v));
    assert ReadBack(root, s4, put.kind) == Some([]) && s4.completed[put.kind] == put.bytes;
  }

  /** The second fills the file of the first, which has nothing to write, and the first renames it into place. */
  lemma FilledByAnother(root: string, s: State, v: nat, w: nat)
    requires Overlap(root, s, v, w) && s.active[v].bytes == [] && s.active[w].bytes != []
    ensures var bytes := s.active[w].bytes;
      var s' := Next(root, Next(root, Next(root, Next(root, s, OpenTmp(v)), OpenTmp(w)), WriteMore(w, |bytes|)), Rename(v));
      !Whole(root, s', s.active[v].kind)
  {
    var put, bytes := s.active[v], s.active[w].bytes;
    assert Overlay([], bytes, 0, |bytes|) == bytes;
    hide PathFor, TmpFor, Overlay;
    var s1 := Next(root, s, OpenTmp(v));
    var f := s1.active[v].file.value;
    assert s1.names[TmpFor(root, put.kind)] == f && s1.active[v] == Writer(put.kind, [], Some(f), 0) && s1.active[w] == s.active[w];
    hide WriterOk;
    var s2 := Next(root, s1, OpenTmp(w));
    assert s2.contents[f] == [] && s2.active[v] == s1.active[v] && s2.active[w] == Writer(put.kind, bytes, Some(f), 0);
    var s3 := Next(root, s2, WriteMore(w, |bytes|));
    assert s3.contents[f] == bytes && s3.names[TmpFor(root, put.kind)] == f && s3.active[v] == s1.active[v];
    var s4 := Next(root, s3, Rename(v));
    assert ReadBack(root, s4, put.kind) == Some(bytes) && s4.completed[put.kind] == [];
  }

  lemma FourStepsTear(root: string, actions: seq<Action>, a: Action, b: Action, c: Action, d: Action, k: BlobKind)
    requires !a.Start? && !b.Start? && !c.Start? && !d.Start?
    requires !Whole(root, Next(root, Next(root, Next(root, Next(root, Run(root, actions), a), b), c), d), k)
    ensures MayTear(root, actions, k)
  {
    RunFour(root, actions, a, b, c, d);
    hide Run, Next, Whole;
    assert !Whole(root, Run(root, actions + [a, b, c, d]), k);
  }

  /** From two overlapping puts, unless both are of nothing, the key may end up torn. */
  lemma OverlapTears(root: string, actions: seq<Action>, v: nat, w: nat)
    requires var s := Run(root, actions);
      Overlap(root, s, v, w) && (s.active[v].bytes != [] || s.active[w].bytes != [])
    ensures MayTear(root, actions, Run(root, actions).active[v].kind)
  {
    var s := Run(root, actions);
    var put, bytes := s.active[v], s.active[w].bytes;
    if put.bytes != [] {
      var rest := |put.bytes| - put.written;
      FilledThenEmptied(root, s, v, w);
      FourStepsTear(root, actions, OpenTmp(v), WriteMore(v, rest), OpenTmp(w), Rename(v), put.kind);
    } else {
      FilledByAnother(root, s, v, w);
      FourStepsTear(root, actions, OpenTmp(v), OpenTmp(w), WriteMore(w, |bytes|), Rename(v), put.kind);
    }
    hide Run, Next, Whole, MayTear;
  }

  predicate Empty(s: State, f: FileId) {
    f in s.contents && s.contents[f] == []
  }

  /** All puts of the key under way are of nothing. */
  ghost predicate AllEmpty(root: string, s: State, k: BlobKind) {
    && Whole(root, s, k)
    && (PathFor(root, k) in s.names ==> s.names[PathFor(root, k)].kind == k)
    && (forall w :: w in s.active && s.active[w].kind == k ==>
          var put := s.active[w];
          && put.bytes == [] && put.written == 0 && (k, []) in s.requested
          && (put.file.Some? ==> Empty(s, put.file.value))
          && (put.file.Some? && TmpFor(root, k) in s.names ==> Empty(s, s.names[TmpFor(root, k)])))
  }

  lemma EmptyOpened(root: string, s: State, action: Action)
    requires DiskOk(root, s) && action.OpenTmp? && action.writer in s.active
    requires AllEmpty(root, s, s.active[action.writer].kind)
    ensures AllEmpty(root, Next(root, s, action), s.active[action.writer].kind)
  {
    NamesApart(root, s.active[action.writer].kind);
    hide PathFor, TmpFor;
  }

  lemma EmptyServed(root: string, s: State, action: Action)
    requires DiskOk(root, s) && !action.Crash? && !action.Start? && action.writer in s.active
    requires AllEmpty(root, s, s.active[action.writer].kind)
    ensures AllEmpty(root, Next(root, s, action), s.active[action.writer].kind)
  {
    if action.OpenTmp? {
      EmptyOpened(root, s, action);
      hide Serve;
    } else {
      NamesApart(root, s.active[action.writer].kind);
      assert Overlay([], [], 0, 0) == [];
    }
    hide PathFor, TmpFor, Overlay, DiskOk;
  }

  lemma EmptySame(root: string, s: State, s': State, k: BlobKind)
    requires DiskOk(root, s) && AllEmpty(root, s, k) && SameFor(root, s, s', k)
    ensures AllEmpty(root, s', k)
  {
    hide PathFor, TmpFor;
  }

  lemma {:induction false} EmptyRun(root: string, actions: seq<Action>, more: seq<Action>, k: BlobKind)
    requires AllEmpty(root, Run(root, actions), k) && forall a :: a in more ==> !a.Start?
    ensures AllEmpty(root, Run(root, actions + more), k)
  {
    hide *;
    if more == [] {
      assert actions + more == actions;
    } else {
      var n := |more| - 1;
      var s, last := Run(root, actions + more[..n]), more[n];
      EmptyRun(root, actions, more[..n], k);
      EveryDiskOk(root, actions + more[..n]);
      RunMore(root, actions + more[..n], last);
      assert actions + more[..n] + [last] == actions + more;
      assert last in more;
      EmptyStep(root, s, last, k);
    }
  }

  lemma EmptyStep(root: string, s: State, action: Action, k: BlobKind)
    requires DiskOk(root, s) && AllEmpty(root, s, k) && !action.Start?
    ensures AllEmpty(root, Next(root, s, action), k)
  {
    hide Serve, PathFor, TmpFor, DiskOk;
    if !action.Crash? && action.writer in s.active {
      if s.active[action.writer].kind == k {
        EmptyServed(root, s, action);
      } else {
        OtherKindUntouched(root, s, action, k);
        EmptySame(root, s, Next(root, s, action), k);
      }
      hide AllEmpty, SameFor;
    }
  }

  lemma OneMoreExclusive(root: string, actions: seq<Action>, a: Action, k: BlobKind)
    requires Exclusive(root, actions, k) && StartsAlone(Run(root, actions), a, k)
    ensures Exclusive(root, actions + [a], k)
  {
    hide Run, StartsAlone;
    var all := actions + [a];
    forall i | 0 <= i < |all| ensures StartsAlone(Run(root, all[..i]), all[i], k) {
      if i < |actions| {
        assert all[..i] == actions[..i];
      } else {
        assert all[..i] == actions;
      }
    }
  }

  lemma NoStartsExclusive(root: string, actions: seq<Action>, more: seq<Action>, k: BlobKind)
    requires Exclusive(root, actions, k) && forall a :: a in more ==> !a.Start?
    ensures Exclusive(root, actions + more, k)
  {
    hide Run, Idle;
    var all := actions + more;
    forall i | 0 <= i < |all| ensures StartsAlone(Run(root, all[..i]), all[i], k) {
      if i < |actions| {
        assert all[..i] == actions[..i];
      } else {
        assert all[i] in more;
      }
    }
  }

  lemma AloneIsSafe(root: string, actions: seq<Action>, w: nat, k: BlobKind, bytes: Bytes)
    requires Exclusive(root, actions, k) && Idle(Run(root, actions), k)
    ensures !MayTear(root, actions + [Start(w, k, bytes)], k)
  {
    hide Run, Idle, Whole;
    var started := actions + [Start(w, k, bytes)];
    OneMoreExclusive(root, actions, Start(w, k, bytes), k);
    hide Exclusive;
    forall more: seq<Action> | forall a :: a in more ==> !a.Start? ensures Whole(root, Run(root, started + more), k) {
      NoStartsExclusive(root, started, more, k);
      PutsAreAtomic(root, started + more, k);
    }
  }

  lemma EmptyIsSafe(root: string, actions: seq<Action>, k: BlobKind)
    requires AllEmpty(root, Run(root, actions), k)
    ensures !MayTear(root, actions, k)
  {
    hide Run, Whole;
    forall more: seq<Action> | forall a :: a in more ==> !a.Start? ensures Whole(root, Run(root, actions + more), k) {
      EmptyRun(root, actions, more, k);
    }
  }

  /** A put of nothing beside puts of nothing. */
  lemma EmptyStart(root: string, s: State, w: nat, k: BlobKind)
    requires KindOk(root, s, k) && w !in s.active
    requires forall v :: v in s.active && s.active[v].kind == k ==> s.active[v].bytes == []
    ensures AllEmpty(root, Next(root, s, Start(w, k, [])), k)
  {
    hide PathFor, TmpFor;
  }

  lemma StartOverlaps(root: string, s: State, v: nat, w: nat, k: BlobKind, bytes: Bytes)
    requires KindOk(root, s, k) && v in s.active && s.active[v].kind == k && w !in s.active
    ensures var s' := Next(root, s, Start(w, k, bytes));
      Overlap(root, s', v, w) && s'.active[v] == s.active[v] && s'.active[w].bytes == bytes
  {
    hide PathFor, TmpFor;
  }

  /**
   Exactly when a new put of a key is safe, after puts of it that did not overlap: when no other put of the key
   is under way, or it and this one both have no bytes. Otherwise some interleaving leaves the key torn.
   */
  lemma PutIsSafeIff(root: string, actions: seq<Action>, w: nat, k: BlobKind, bytes: Bytes)
    requires Exclusive(root, actions, k) && w !in Run(root, actions).active
    ensures var active := Run(root, actions).active;
      !MayTear(root, actions + [Start(w, k, bytes)], k) <==>
        forall v :: v in active && active[v].kind == k ==> active[v].bytes == [] && bytes == []
  {
    hide Whole, MayTear, WriterOk, AllEmpty, Next;
    var s := Run(root, actions);
    EveryKindOk(root, actions, k);
    RunMore(root, actions, Start(w, k, bytes));
    hide Run, Exclusive;
    if v :| v in s.active && s.active[v].kind == k {
      if s.active[v].bytes == [] && bytes == [] {
        EmptyStart(root, s, w, k);
        EmptyIsSafe(root, actions + [Start(w, k, bytes)], k);
      } else {
        StartOverlaps(root, s, v, w, k, bytes);
        OverlapTears(root, actions + [Start(w, k, bytes)], v, w);
      }
    } else {
      AloneIsSafe(root, actions, w, k, bytes);
    }
  }

  /** Even two puts of the same bytes under one key may leave it torn. */
  lemma SameBytesMayTear(root: string, k: BlobKind, bytes: Bytes)
    requires bytes != []
    ensures MayTear(root, [Start(0, k, bytes), Start(1, k, bytes)], k)
  {
    var first := [Start(0, k, bytes)];
    assert Run(root, []) == FRESH && first[..0] == [];
    OneMoreExclusive(root, [], Start(0, k, bytes), k);
    assert [] + first == first && first + [Start(1, k, bytes)] == [Start(0, k, bytes), Start(1, k, bytes)];
    PutIsSafeIff(root, first, 1, k, bytes);
    hide MayTear, Exclusive;
    assert 0 in Run(root, first).active && Run(root, first).active[0].kind == k;
  }

  // The same put as one call.

  /** Where the file system may refuse. */
  datatype Fault =
    | NoFault
    | OpenFault                 // no directory, or the temporary file cannot be opened
    | WriteFault(after: nat)    // the write stops early
    | RenameFault

  datatype BlobError = NotFound(key: string) | Io

  /** How many bytes get written before the call renames or gives up. */
  function Reached(bytes: Bytes, fault: Fault): (n: nat)
    ensures n <= |bytes|
  {
    if fault.WriteFault? then Min(fault.after, |bytes|) else |bytes|
  }

  /** The steps one call takes. */
  function PutActions(kind: BlobKind, bytes: Bytes, fault: Fault): seq<Action> {
    if fault.OpenFault? then [Start(0, kind, bytes), Fail(0)]
    else [Start(0, kind, bytes), OpenTmp(0), WriteMore(0, Reached(bytes, fault)), if fault.NoFault? then Rename(0) else Fail(0)]
  }

  /** What a directory walk would read. */
  function Files(s: State): map<string, Bytes> {
    map p | p in s.names && s.names[p] in s.contents :: s.contents[s.names[p]]
  }

  /** What a call makes of the files. */
  function PutFiles(root: string, files: map<string, Bytes>, kind: BlobKind, bytes: Bytes, fault: Fault): map<string, Bytes> {
    var tmp := TmpFor(root, kind);
    match fault
    case NoFault => (files - {tmp})[PathFor(root, kind) := bytes]
    case OpenFault => files
    case _ => files[tmp := bytes[..Reached(bytes, fault)]]
  }

  /** The state while `n` bytes of a put are in its temporary file. */
  function Writing(root: string, s: State, kind: BlobKind, bytes: Bytes, n: nat): State
    requires n <= |bytes|
  {
    var f := FileFor(root, s, kind);
    s.(names := s.names[TmpFor(root, kind) := f], contents := s.contents[f := bytes[..n]], serial := s.serial + 1,
       active := s.active[0 := Writer(kind, bytes, Some(f), n)],
       requested := s.requested + {(kind, bytes)})
  }

  lemma WritingOpens(root: string, s: State, kind: BlobKind, bytes: Bytes)
    requires s.active == map[]
    ensures Next(root, Next(root, s, Start(0, kind, bytes)), OpenTmp(0)) == Writing(root, s, kind, bytes, 0)
  {
    hide TmpFor, PathFor, Overlay;
    assert bytes[..0] == [];
  }

  lemma WritingGoesOn(root: string, s: State, kind: BlobKind, bytes: Bytes, n: nat)
    requires s.active == map[] && n <= |bytes|
    ensures Next(root, Writing(root, s, kind, bytes, 0), WriteMore(0, n)) == Writing(root, s, kind, bytes, n)
  {
    OverlayExtends(bytes, 0, n);
    hide TmpFor, PathFor, FileFor, Overlay;
    var f, s0 := FileFor(root, s, kind), Writing(root, s, kind, bytes, 0);
    assert s0.contents[f] == bytes[..0] && s0.active[0] == Writer(kind, bytes, Some(f), 0);
    assert s.contents[f := bytes[..0]][f := bytes[..n]] == s.contents[f := bytes[..n]];
  }

  lemma WritingIsReached(root: string, s: State, kind: BlobKind, bytes: Bytes, n: nat)
    requires s.active == map[] && n <= |bytes|
    ensures Next(root, Next(root, Next(root, s, Start(0, kind, bytes)), OpenTmp(0)), WriteMore(0, n)) == Writing(root, s, kind, bytes, n)
  {
    WritingOpens(root, s, kind, bytes);
    WritingGoesOn(root, s, kind, bytes, n);
    hide Next, Writing;
  }

  lemma WritingFiles(root: string, s: State, kind: BlobKind, bytes: Bytes, n: nat)
    requires DiskOk(root, s) && n <= |bytes|
    ensures Files(Writing(root, s, kind, bytes, n)) == Files(s)[TmpFor(root, kind) := bytes[..n]]
  {
    hide TmpFor, PathFor;
  }

  lemma RenameFiles(root: string, t: State, w: nat)
    requires w in t.active && t.active[w].file.Some? && t.active[w].written == |t.active[w].bytes|
    requires TmpFor(root, t.active[w].kind) in t.names && t.names[TmpFor(root, t.active[w].kind)] in t.contents
    ensures var put := t.active[w]; var tmp := TmpFor(root, put.kind);
      && Files(Next(root, t, Rename(w))) == (Files(t) - {tmp})[PathFor(root, put.kind) := t.contents[t.names[tmp]]]
      && Next(root, t, Rename(w)).active == t.active - {w}
  {
    NamesApart(root, t.active[w].kind);
    hide TmpFor, PathFor;
  }

  lemma RenameStep(root: string, s: State, kind: BlobKind, bytes: Bytes)
    requires DiskOk(root, s) && s.active == map[]
    ensures var s' := Next(root, Writing(root, s, kind, bytes, |bytes|), Rename(0));
      s'.active == map[] && Files(s') == PutFiles(root, Files(s), kind, bytes, NoFault)
  {
    var t, tmp := Writing(root, s, kind, bytes, |bytes|), TmpFor(root, kind);
    WritingFiles(root, s, kind, bytes, |bytes|);
    assert bytes[..|bytes|] == bytes;
    assert t.active[0].kind == kind && t.active - {0} == map[];
    hide TmpFor, PathFor, DiskOk, FileFor, Next, Files;
    RenameFiles(root, t, 0);
    hide Writing;
    assert Files(s)[tmp := bytes] - {tmp} == Files(s) - {tmp};
  }

  lemma FailStep(root: string, s: State, kind: BlobKind, bytes: Bytes, n: nat)
    requires DiskOk(root, s) && s.active == map[] && n <= |bytes|
    ensures var s' := Next(root, Writing(root, s, kind, bytes, n), Fail(0));
      s'.active == map[] && Files(s') == Files(s)[TmpFor(root, kind) := bytes[..n]]
  {
    var t := Writing(root, s, kind, bytes, n);
    WritingFiles(root, s, kind, bytes, n);
    assert t.active - {0} == map[];
    hide TmpFor, PathFor, DiskOk, FileFor;
    assert Files(Next(root, t, Fail(0))) == Files(t);
  }

  lemma LastStep(root: string, s: State, kind: BlobKind, bytes: Bytes, fault: Fault)
    requires DiskOk(root, s) && s.active == map[] && !fault.OpenFault?
    ensures var s' := Next(root, Writing(root, s, kind, bytes, Reached(bytes, fault)), if fault.NoFault? then Rename(0) else Fail(0));
      s'.active == map[] && Files(s') == PutFiles(root, Files(s), kind, bytes, fault)
  {
    if fault.NoFault? {
      RenameStep(root, s, kind, bytes);
    } else {
      FailStep(root, s, kind, bytes, Reached(bytes, fault));
    }
    hide TmpFor, PathFor, DiskOk, FileFor, Next, Files, Writing;
  }

  /** The steps of one call, when no other put is under way, come to one change of the files. */
  lemma PutRun(root: string, actions: seq<Action>, kind: BlobKind, bytes: Bytes, fault: Fault)
    requires Run(root, actions).active == map[]
    ensures var s, s' := Run(root, actions), Run(root, actions + PutActions(kind, bytes, fault));
      s'.active == map[] && Files(s') == PutFiles(root, Files(s), kind, bytes, fault)
  {
    var s := Run(root, actions);
    EveryDiskOk(root, actions);
    if fault.OpenFault? {
      var started := actions + [Start(0, kind, bytes)];
      RunMore(root, actions, Start(0, kind, bytes));
      RunMore(root, started, Fail(0));
      assert started + [Fail(0)] == actions + PutActions(kind, bytes, fault);
      hide Run, TmpFor, PathFor, DiskOk;
    } else {
      var n, last := Reached(bytes, fault), if fault.NoFault? then Rename(0) else Fail(0);
      RunFour(root, actions, Start(0, kind, bytes), OpenTmp(0), WriteMore(0, n), last);
      WritingIsReached(root, s, kind, bytes, n);
      LastStep(root, s, kind, bytes, fault);
      hide Run, Next, Writing, Files, PutFiles, DiskOk;
    }
  }

  lemma PutStartsAlone(root: string, actions: seq<Action>, kind: BlobKind, bytes: Bytes, fault: Fault, k: BlobKind)
    requires Exclusive(root, actions, k) && Run(root, actions).active == map[]
    ensures Exclusive(root, actions + PutActions(kind, bytes, fault), k)
  {
    var all := PutActions(kind, bytes, fault);
    OneMoreExclusive(root, actions, all[0], k);
    NoStartsExclusive(root, actions + [all[0]], all[1..], k);
    assert actions + [all[0]] + all[1..] == actions + all;
    hide Run, Exclusive;
  }

  /** What the keys read as after a call. */
  lemma PutReads(root: string, files: map<string, Bytes>, kind: BlobKind, bytes: Bytes, fault: Fault)
    ensures var files' := PutFiles(root, files, kind, bytes, fault);
      && (fault.NoFault? ==> PathFor(root, kind) in files' && files'[PathFor(root, kind)] == bytes && TmpFor(root, kind) !in files')
      && forall k :: k != kind || !fault.NoFault? ==> Lookup(files', PathFor(root, k)) == Lookup(files, PathFor(root, k))
  {
    NamesApart(root, kind);
    hide PathFor, TmpFor;
  }

  function Lookup(files: map<string, Bytes>, path: string): Option<Bytes> {
    if path in files then Some(files[path]) else None
  }

  predicate Under(root: string, path: string) {
    root + "/" <= path
  }

  /** These files are what these steps leave, no put is under way, and none overlapped another. */
  ghost predicate Leaves(root: string, actions: seq<Action>, files: map<string, Bytes>) {
    && files == Files(Run(root, actions)) && Run(root, actions).active == map[]
    && forall k :: Exclusive(root, actions, k)
  }

  lemma PutLeaves(root: string, actions: seq<Action>, files: map<string, Bytes>, kind: BlobKind, bytes: Bytes, fault: Fault)
    requires Leaves(root, actions, files)
    ensures Leaves(root, actions + PutActions(kind, bytes, fault), PutFiles(root, files, kind, bytes, fault))
  {
    PutRun(root, actions, kind, bytes, fault);
    forall k ensures Exclusive(root, actions + PutActions(kind, bytes, fault), k) {
      PutStartsAlone(root, actions, kind, bytes, fault, k);
    }
    hide Run, PutActions, PutFiles, Exclusive, Files;
  }

  class FsBlobStore {
    const root: string
    var files: map<string, Bytes>

    /** Every step taken so far. */
    ghost var actions: seq<Action>

    ghost predicate Valid()
      reads this
    {
      Leaves(root, actions, files)
    }

    constructor (root: string)
      ensures Valid() && this.root == root && actions == []
    {
      this.root := root;
      files := map[];
      actions := [];
    }

    function Uri(kind: BlobKind): string {
      "file://" + PathFor(root, kind)
    }

    method Put(kind: BlobKind, bytes: Bytes, fault: Fault) returns (r: Result<string, BlobError>)
      requires Valid()
      modifies this
      ensures Valid() && actions == old(actions) + PutActions(kind, bytes, fault)
      ensures r == if fault.NoFault? then Ok(Uri(kind)) else Err(Io)
      ensures r.Ok? ==> exists path :: r.value == "file://" + path && Under(root, path) && Lookup(files, path) == Some(bytes)
      ensures r.Ok? ==> Lookup(files, PathFor(root, kind)) == Some(bytes) && TmpFor(root, kind) !in files
      ensures forall k :: k != kind || r.Err? ==> Lookup(files, PathFor(root, k)) == Lookup(old(files), PathFor(root, k))
    {
      PutLeaves(root, actions, files, kind, bytes, fault);
      PutReads(root, files, kind, bytes, fault);
      hide PathFor, TmpFor, PutActions, Uri, Lookup, Leaves;
      actions := actions + PutActions(kind, bytes, fault);
      var path := PathFor(root, kind);
      if fault.OpenFault? {
        return Err(Io);
      }
      var tmp := TmpFor(root, kind);
      if fault.WriteFault? {
        files := files[tmp := bytes[..Reached(bytes, fault)]];
        return Err(Io);
      }
      assert bytes[..|bytes|] == bytes;
      files := files[tmp := bytes];
      if fault.RenameFault? {
        return Err(Io);
      }
      assert files - {tmp} == old(files) - {tmp};
      files := (files - {tmp})[path := files[tmp]];
      r := Ok(Uri(kind));
      UriNamesPath(kind);
      assert Lookup(files, path) == Some(bytes);
    }

    /** The URI is the scheme and a path under the root; the same URI means the same kind. */
    lemma UriNamesPath(kind: BlobKind)
      ensures Uri(kind) == "file://" + PathFor(root, kind) && Under(root, PathFor(root, kind))
      ensures forall other :: Uri(other) == Uri(kind) ==> other == kind
    {
      assert root + "/" <= PathFor(root, kind);
      forall other | Uri(other) == Uri(kind) ensures other == kind {
        assert PathFor(root, kind) == Uri(kind)[7..] && PathFor(root, other) == Uri(other)[7..];
        PathInjective(root, kind, other);
      }
    }

    /** `refused` is a read error other than a missing file. */
    method Get(kind: BlobKind, refused: bool) returns (r: Result<Bytes, BlobError>)
      requires Valid()
      ensures var completed := Run(root, actions).completed;
        r == if refused then Err(Io) else if kind in completed then Ok(completed[kind]) else Err(NotFound(Key(kind)))
    {
      PutsAreAtomic(root, actions, kind);
      hide Run, PathFor;
      var path := PathFor(root, kind);
      if refused {
        r := Err(Io);
      } else if path in files {
        r := Ok(files[path]);
      } else {
        r := Err(NotFound(Key(kind)));
      }
    }
  }
}
