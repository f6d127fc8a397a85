/** Path normalisation for problem archives: refuse what could leave the tree, drop what says nothing. */
module Paths {
  import opened Prelude
  import opened Text

  datatype SourceError = NotFound(path: string) | Escapes(path: string)

  /** `path.replace('\\', "/")` */
  function ToSlashes(s: string): (r: string)
    ensures |r| == |s| && forall i :: 0 <= i < |s| ==> r[i] == if s[i] == '\\' then '/' else s[i]
  {
    seq(|s|, i requires 0 <= i < |s| => if s[i] == '\\' then '/' else s[i])
  }

  /** `trim_start_matches("./")` */
  function TrimDotSlash(s: string): string {
    if "./" <= s then TrimDotSlash(s[2..]) else s
  }

  /** Segments that name something. */
  function Kept(parts: seq<string>): (r: seq<string>)
    ensures forall p :: p in r ==> p in parts && p != "" && p != "."
  {
    if parts == [] then []
    else if parts[0] == "" || parts[0] == "." then Kept(parts[1..])
    else [parts[0]] + Kept(parts[1..])
  }

  /** The normal form of a path, or why it has none. */
  function Normal(path: string): Result<string, SourceError> {
    var trimmed := TrimDotSlash(ToSlashes(path));
    if trimmed == "" then Err(NotFound(path))
    else if trimmed[0] == '/' || ':' in trimmed || ".." in Split(trimmed, '/') then Err(Escapes(path))
    else if Kept(Split(trimmed, '/')) == [] then Err(NotFound(path))
    else Ok(Join(Kept(Split(trimmed, '/')), '/'))
  }

  lemma {:induction false} KeptConcat(a: seq<string>, b: seq<string>)
    ensures Kept(a + b) == Kept(a) + Kept(b)
  {
    if a == [] {
      assert a + b == b;
    } else {
      assert (a + b)[1..] == a[1..] + b;
      KeptConcat(a[1..], b);
    }
  }

  lemma {:induction false} KeptIsAll(a: seq<string>)
    requires forall p :: p in a ==> p != "" && p != "."
    ensures Kept(a) == a
  {
    if a != [] {
      assert a[0] in a;
      assert forall p :: p in a[1..] ==> p in a;
      KeptIsAll(a[1..]);
      assert a == [a[0]] + a[1..];
    }
  }

  /** `normalize`, with its early returns and its loop over the segments. */
  method Normalize(path: string) returns (r: Result<string, SourceError>)
    ensures r == Normal(path)
  {
    var trimmed := TrimDotSlash(ToSlashes(path));
    if trimmed == "" {
      return Err(NotFound(path));
    }
    if trimmed[0] == '/' || ':' in trimmed {
      return Err(Escapes(path));
    }
    var segments := Split(trimmed, '/');
    var kept: seq<string> := [];
    for i := 0 to |segments|
      invariant kept == Kept(segments[..i])
      invariant ".." !in segments[..i]
    {
      var segment := segments[i];
      assert segments[..i + 1] == segments[..i] + [segment];
      KeptConcat(segments[..i], [segment]);
      if segment == ".." {
        return Err(Escapes(path));
      }
      if segment != "" && segment != "." {
        kept := kept + [segment];
      }
    }
    assert segments[..|segments|] == segments;
    if kept == [] {
      return Err(NotFound(path));
    }
    r := Ok(Join(kept, '/'));
  }

  // What a path means, independently of how it is cleaned up.

  /** Walking the segments from directory `at`: None as soon as the walk would leave the root. */
  function Walk(parts: seq<string>, at: seq<string>): Option<seq<string>> {
    if parts == [] then Some(at)
    else if parts[0] == "" || parts[0] == "." then Walk(parts[1..], at)
    else if parts[0] == ".." then (if at == [] then None else Walk(parts[1..], at[..|at| - 1]))
    else Walk(parts[1..], at + [parts[0]])
  }

  lemma {:induction false} WalkIsKept(parts: seq<string>, at: seq<string>)
    requires ".." !in parts
    ensures Walk(parts, at) == Some(at + Kept(parts))
  {
    if parts == [] {
      assert at + [] == at;
    } else if parts[0] == "" || parts[0] == "." {
      WalkIsKept(parts[1..], at);
    } else {
      WalkIsKept(parts[1..], at + [parts[0]]);
      assert at + [parts[0]] + Kept(parts[1..]) == at + Kept(parts);
    }
  }

  /** Leading "./" neither adds nor hides a segment. */
  lemma {:induction false} TrimKeepsSegments(s: string)
    ensures Kept(Split(TrimDotSlash(s), '/')) == Kept(Split(s, '/'))
    ensures ".." in Split(TrimDotSlash(s), '/') <==> ".." in Split(s, '/')
    ensures ':' in TrimDotSlash(s) <==> ':' in s
  {
    if "./" <= s {
      TrimKeepsSegments(s[2..]);
      SplitSepFree(".", '/');
      SplitConcat(".", s[2..], '/');
      assert s == "." + ['/'] + s[2..];
      KeptConcat(["."], Split(s[2..], '/'));
      assert Kept(["."]) == [];
      assert ':' in s ==> ':' in s[2..];
    }
  }

  ghost predicate Relative(path: string) {
    var trimmed := TrimDotSlash(ToSlashes(path));
    trimmed == "" || trimmed[0] != '/'
  }

  /** A path normalises exactly when it is relative, has no drive or scheme, never says "..", and walks somewhere; then the walk is kept. */
  lemma NormalPreservesMeaning(path: string)
    ensures var parts := Split(ToSlashes(path), '/');
      && (Normal(path).Ok? <==>
            Relative(path) && ':' !in path && ".." !in parts && Walk(parts, []) != Some([]))
      && (Normal(path).Ok? ==>
            && Walk(parts, []) == Some(Split(Normal(path).value, '/'))
            && Walk(Split(Normal(path).value, '/'), []) == Walk(parts, []))
  {
    var w := ToSlashes(path);
    var parts := Split(w, '/');
    TrimKeepsSegments(w);
    ColonSurvives(path);
    if ".." !in parts {
      WalkIsKept(parts, []);
      assert [] + Kept(parts) == Kept(parts);
    }
    if TrimDotSlash(w) == "" {
      assert Kept(Split("", '/')) == [];
    }
    if Normal(path).Ok? {
      NormalSegments(path);
      var out := Split(Normal(path).value, '/');
      KeptIsAll(out);
      WalkIsKept(out, []);
      assert [] + out == out;
    }
  }

  /** Each refusal has its own cause: an escape is absolute, has a drive or scheme, or says ".."; the rest name nothing. */
  lemma RefusalsHaveCauses(path: string)
    ensures var parts := Split(ToSlashes(path), '/'); var escapes := !Relative(path) || ':' in path || ".." in parts;
      && (Normal(path) == Err(Escapes(path)) <==> escapes)
      && (Normal(path) == Err(NotFound(path)) <==> !escapes && Walk(parts, []) == Some([]))
      && (Normal(path).Err? ==> Normal(path).error == Escapes(path) || Normal(path).error == NotFound(path))
  {
    var w := ToSlashes(path);
    var parts := Split(w, '/');
    NormalPreservesMeaning(path);
    TrimKeepsSegments(w);
    ColonSurvives(path);
    if TrimDotSlash(w) == "" {
      assert Split("", '/') == [""];
    }
  }

  /** Copies of "./", one after the other. */
  function Dots(n: nat): string {
    if n == 0 then "" else "./" + Dots(n - 1)
  }

  /** Trimming takes off every leading "./" and nothing else. */
  lemma {:induction false} TrimTakesDots(s: string) returns (n: nat)
    ensures s == Dots(n) + TrimDotSlash(s) && !("./" <= TrimDotSlash(s))
  {
    if "./" <= s {
      var m := TrimTakesDots(s[2..]);
      n := m + 1;
      assert s == "./" + s[2..];
      assert "./" + (Dots(m) + TrimDotSlash(s)) == Dots(n) + TrimDotSlash(s);
    } else {
      n := 0;
      assert s == Dots(0) + s;
    }
  }

  lemma ColonSurvives(path: string)
    ensures ':' in ToSlashes(path) <==> ':' in path
  {
    var w := ToSlashes(path);
    if ':' in path {
      var i :| 0 <= i < |path| && path[i] == ':';
      assert w[i] == ':';
    }
  }

  /** The segments of a normal form are the kept segments of the input. */
  lemma NormalSegments(path: string)
    requires Normal(path).Ok?
    ensures Split(Normal(path).value, '/') == Kept(Split(ToSlashes(path), '/')) != []
    ensures Canonical(Normal(path).value)
  {
    var w := ToSlashes(path);
    TrimKeepsSegments(w);
    PiecesAreSepFree(w, '/');
    var kept := Kept(Split(w, '/'));
    SplitJoin(kept, '/');
    JoinChars(kept, '/');
    forall c | c in Join(kept, '/') ensures c != ':' && c != '\\' {
      if c != '/' {
        var p :| p in kept && c in p;
        assert c in w;
      }
    }
  }

  /** Keys of an archive: proper segments only, in one spelling. */
  ghost predicate Canonical(key: string) {
    && ':' !in key && '\\' !in key
    && forall p :: p in Split(key, '/') ==> p != "" && p != "." && p != ".."
  }

  lemma DotSlashIsDot(s: string)
    ensures "./" <= s ==> Split(s, '/')[0] == "."
  {
    if "./" <= s {
      assert s == "." + ['/'] + s[2..];
      SplitSepFree(".", '/');
      SplitConcat(".", s[2..], '/');
    }
  }

  /** Canonical strings are exactly the normal forms, and each is its own normal form. */
  lemma CanonicalIsFixed(key: string)
    ensures Canonical(key) <==> Normal(key) == Ok(key)
  {
    if Canonical(key) {
      var parts := Split(key, '/');
      assert ToSlashes(key) == key;
      assert parts[0] in parts;
      DotSlashIsDot(key);
      assert key != "" && key[0] != '/';
      KeptIsAll(parts);
      JoinSplit(key, '/');
    } else if Normal(key) == Ok(key) {
      NormalSegments(key);
    }
  }

  lemma SlashesConcat(a: string, b: string)
    ensures ToSlashes(a + "/" + b) == ToSlashes(a) + ['/'] + ToSlashes(b)
  {
  }

  /** Trimming stops inside a path that names something. */
  lemma {:induction false} TrimOfJoined(a: string, b: string)
    requires TrimDotSlash(a) != "" && TrimDotSlash(a) != "."
    ensures TrimDotSlash(a + ['/'] + b) == TrimDotSlash(a) + ['/'] + b
  {
    if "./" <= a {
      TrimOfJoined(a[2..], b);
      assert (a + ['/'] + b)[2..] == a[2..] + ['/'] + b;
    } else {
      NoDotSlash(a, b);
    }
  }

  lemma NoDotSlash(a: string, b: string)
    requires a != "" && a != "." && !("./" <= a)
    ensures !("./" <= a + ['/'] + b)
  {
    var joined := a + ['/'] + b;
    assert |a| >= 2 ==> joined[0] == a[0] && joined[1] == a[1] && a[..2] == [a[0], a[1]];
    assert |a| == 1 ==> joined[0] == a[0] && a == [a[0]];
  }

  /** Joining commutes with normalising. */
  lemma NormalOfJoined(p: string, q: string)
    requires Normal(p).Ok? && Normal(q).Ok?
    ensures Normal(p + "/" + q) == Ok(Normal(p).value + "/" + Normal(q).value)
  {
    var a, b := ToSlashes(p), ToSlashes(q);
    SlashesConcat(p, q);
    TrimKeepsSegments(a);
    TrimKeepsSegments(b);
    TrimKeepsSegments(a + ['/'] + b);
    if TrimDotSlash(a) == "." {
      SplitSepFree(".", '/');
    }
    TrimOfJoined(a, b);
    SplitConcat(a, b, '/');
    KeptConcat(Split(a, '/'), Split(b, '/'));
    JoinConcat(Kept(Split(a, '/')), Kept(Split(b, '/')), '/');
    assert TrimDotSlash(a + ['/'] + b)[0] == TrimDotSlash(a)[0];
  }

  // Where rejecting and rewriting part, at concrete inputs.

  lemma SplitExamples()
    ensures Split("a//b", '/') == ["a", "", "b"] && Split("a/b", '/') == ["a", "b"]
  {
    SplitSepFree("a", '/');
    SplitSepFree("", '/');
    SplitSepFree("b", '/');
    SplitConcat("", "b", '/');
    SplitConcat("a", "/b", '/');
    SplitConcat("a", "b", '/');
    hide Split;
    assert "a//b" == "a" + ['/'] + "/b" && "/b" == "" + ['/'] + "b" && "a/b" == "a" + ['/'] + "b";
  }

  /** An empty segment is dropped silently, and so is the difference between a backslash and a slash. */
  lemma RewrittenSilently()
    ensures Normal("a//b") == Ok("a/b") && Normal("a\\b") == Ok("a/b")
  {
    SplitExamples();
    hide Split;
    assert "./"[0] != "a//b"[0] && "./"[0] != "a/b"[0];
    assert TrimDotSlash("a//b") == "a//b" && TrimDotSlash("a/b") == "a/b";
    assert |".."| == 2 && |"a"| == |"b"| == 1;
    assert ToSlashes("a//b") == "a//b" && ToSlashes("a\\b") == "a/b";
    assert Kept(["b"]) == ["b"];
    assert Kept(["", "b"]) == ["b"];
    assert Kept(["a", "", "b"]) == ["a", "b"] == Kept(["a", "b"]);
    assert Join(["a", "b"], '/') == "a/b";
  }

  /** The same empty segment after a leading "./" is refused. */
  lemma UncoveredSlashRefused()
    ensures Normal(".//a") == Err(Escapes(".//a"))
  {
    assert ToSlashes(".//a") == ".//a";
    assert ".//a"[2..] == "/a";
    assert TrimDotSlash("/a") == "/a" by {
      assert "./"[0] != "/a"[0];
    }
    assert "./" <= ".//a";
  }
}
