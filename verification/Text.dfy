/** Splitting, joining and trimming of strings, as Rust's `str` does it. */
module Text {

  /** `str::split(sep)`: the pieces between separators; one more piece than separators. */
  function Split(s: string, sep: char): (r: seq<string>)
    ensures |r| >= 1
  {
    if s == "" then [""]
    else
      var rest := Split(s[1..], sep);
      if s[0] == sep then [""] + rest else [[s[0]] + rest[0]] + rest[1..]
  }

  function Join(parts: seq<string>, sep: char): string {
    if parts == [] then ""
    else if |parts| == 1 then parts[0]
    else parts[0] + [sep] + Join(parts[1..], sep)
  }

  lemma {:induction false} PiecesAreSepFree(s: string, sep: char)
    ensures forall p :: p in Split(s, sep) ==> sep !in p && (forall c :: c in p ==> c in s)
  {
    if s != "" {
      PiecesAreSepFree(s[1..], sep);
    }
  }

  lemma {:induction false} SplitSepFree(s: string, sep: char)
    requires sep !in s
    ensures Split(s, sep) == [s]
  {
    if s != "" {
      SplitSepFree(s[1..], sep);
      assert s == [s[0]] + s[1..];
    }
  }

  /** Gluing a separator-free head in front extends the first piece only. */
  lemma {:induction false} SplitHead(head: string, tail: string, sep: char)
    requires sep !in head
    ensures Split(head + tail, sep) == [head + Split(tail, sep)[0]] + Split(tail, sep)[1..]
  {
    if head == "" {
      assert head + tail == tail;
      assert "" + Split(tail, sep)[0] == Split(tail, sep)[0];
    } else {
      SplitHead(head[1..], tail, sep);
      SplitPlain(head + tail, sep);
      assert (head + tail)[1..] == head[1..] + tail && (head + tail)[0] == head[0];
      hide Split;
      assert [head[0]] + (head[1..] + Split(tail, sep)[0]) == head + Split(tail, sep)[0];
    }
  }

  lemma SplitPlain(s: string, sep: char)
    requires s != "" && s[0] != sep
    ensures Split(s, sep) == [[s[0]] + Split(s[1..], sep)[0]] + Split(s[1..], sep)[1..]
  {
  }

  lemma {:induction false} SplitConcat(a: string, b: string, sep: char)
    ensures Split(a + [sep] + b, sep) == Split(a, sep) + Split(b, sep)
  {
    if a == "" {
      assert a + [sep] + b == [sep] + b;
      assert ([sep] + b)[1..] == b;
    } else {
      assert (a + [sep] + b)[1..] == a[1..] + [sep] + b;
      SplitConcat(a[1..], b, sep);
    }
  }

  lemma {:induction false} JoinSplit(s: string, sep: char)
    ensures Join(Split(s, sep), sep) == s
  {
    if s != "" {
      JoinSplit(s[1..], sep);
      var rest := Split(s[1..], sep);
      if s[0] == sep {
        assert Split(s, sep)[1..] == rest;
      } else {
        assert Split(s, sep)[1..] == rest[1..];
      }
      assert s == [s[0]] + s[1..];
    }
  }

  lemma {:induction false} SplitJoin(parts: seq<string>, sep: char)
    requires parts != [] && forall p :: p in parts ==> sep !in p
    ensures Split(Join(parts, sep), sep) == parts
  {
    SplitSepFree(parts[0], sep);
    if |parts| > 1 {
      SplitJoin(parts[1..], sep);
      SplitConcat(parts[0], Join(parts[1..], sep), sep);
      assert parts == [parts[0]] + parts[1..];
    }
  }

  lemma {:induction false} JoinConcat(a: seq<string>, b: seq<string>, sep: char)
    requires a != [] && b != []
    ensures Join(a + b, sep) == Join(a, sep) + [sep] + Join(b, sep)
  {
    if |a| == 1 {
      assert (a + b)[1..] == b;
    } else {
      assert (a + b)[1..] == a[1..] + b;
      JoinConcat(a[1..], b, sep);
    }
  }

  lemma {:induction false} JoinChars(parts: seq<string>, sep: char)
    ensures forall c :: c in Join(parts, sep) ==> c == sep || exists p :: p in parts && c in p
  {
    if |parts| > 1 {
      JoinChars(parts[1..], sep);
      forall c | c in Join(parts, sep) && c != sep ensures exists p :: p in parts && c in p {
        if c in parts[0] {
          assert parts[0] in parts;
        } else {
          assert c in Join(parts[1..], sep);
          var p :| p in parts[1..] && c in p;
          assert p in parts;
        }
      }
    } else if |parts| == 1 {
      assert parts[0] in parts;
    }
  }

  /** Unicode White_Space, the set behind `char::is_whitespace`. */
  predicate IsSpace(c: char) {
    var n := c as int;
    || 0x9 <= n <= 0xD || n == 0x20 || n == 0x85 || n == 0xA0 || n == 0x1680
    || 0x2000 <= n <= 0x200A || n == 0x2028 || n == 0x2029 || n == 0x202F || n == 0x205F || n == 0x3000
  }

  /** The characters with the White_Space property in Unicode's PropList.txt. */
  const WHITE_SPACE: string :=
    "\t\n\U{000B}\U{000C}\r \U{0085}\U{00A0}\U{1680}" +
    "\U{2000}\U{2001}\U{2002}\U{2003}\U{2004}\U{2005}\U{2006}\U{2007}\U{2008}\U{2009}\U{200A}" +
    "\U{2028}\U{2029}\U{202F}\U{205F}\U{3000}"

  lemma SpacesAreWhiteSpace(c: char)
    ensures IsSpace(c) <==> c in WHITE_SPACE
  {
  }

  predicate Blank(s: string) {
    forall c :: c in s ==> IsSpace(c)
  }

  function TrimStart(s: string): string {
    if s != "" && IsSpace(s[0]) then TrimStart(s[1..]) else s
  }

  function TrimEnd(s: string): string {
    if s != "" && IsSpace(s[|s| - 1]) then TrimEnd(s[..|s| - 1]) else s
  }

  /** `str::trim` */
  function Trim(s: string): string {
    TrimEnd(TrimStart(s))
  }

  /** What trimming leaves, said without its loops: the text between two blank margins. */
  ghost predicate Trimmed(s: string, core: string) {
    && (exists l, r :: Blank(l) && Blank(r) && s == l + core + r)
    && (core != "" ==> !IsSpace(core[0]) && !IsSpace(core[|core| - 1]))
  }

  lemma {:induction false} TrimStartSplits(s: string) returns (l: string)
    ensures Blank(l) && s == l + TrimStart(s)
    ensures TrimStart(s) != "" ==> !IsSpace(TrimStart(s)[0])
  {
    if s != "" && IsSpace(s[0]) {
      var l' := TrimStartSplits(s[1..]);
      l := [s[0]] + l';
    } else {
      l := "";
    }
  }

  lemma {:induction false} TrimEndSplits(s: string) returns (r: string)
    ensures Blank(r) && s == TrimEnd(s) + r
    ensures TrimEnd(s) != "" ==> !IsSpace(TrimEnd(s)[|TrimEnd(s)| - 1])
  {
    if s != "" && IsSpace(s[|s| - 1]) {
      var r' := TrimEndSplits(s[..|s| - 1]);
      r := r' + [s[|s| - 1]];
    } else {
      r := "";
    }
  }

  lemma {:induction false} TrimStartMargin(l: string, core: string)
    requires Blank(l) && (core != "" ==> !IsSpace(core[0]))
    ensures TrimStart(l + core) == core
  {
    if l == "" {
      assert l + core == core;
    } else {
      assert (l + core)[1..] == l[1..] + core;
      TrimStartMargin(l[1..], core);
    }
  }

  lemma {:induction false} TrimEndMargin(core: string, r: string)
    requires Blank(r) && (core != "" ==> !IsSpace(core[|core| - 1]))
    ensures TrimEnd(core + r) == core
  {
    if r == "" {
      assert core + r == core;
    } else {
      assert (core + r)[..|core + r| - 1] == core + r[..|r| - 1];
      TrimEndMargin(core, r[..|r| - 1]);
    }
  }

  lemma {:induction false} TrimStartBlank(s: string)
    requires Blank(s)
    ensures TrimStart(s) == ""
  {
    if s != "" {
      TrimStartBlank(s[1..]);
    }
  }

  lemma TrimOfMargins(l: string, core: string, r: string)
    requires Blank(l) && Blank(r)
    requires core != "" ==> !IsSpace(core[0]) && !IsSpace(core[|core| - 1])
    ensures Trim(l + core + r) == core
  {
    if core == "" {
      assert Blank(l + core + r);
      TrimStartBlank(l + core + r);
    } else {
      assert l + core + r == l + (core + r);
      TrimStartMargin(l, core + r);
      TrimEndMargin(core, r);
    }
  }

  lemma TrimHasMargins(s: string) returns (l: string, r: string)
    ensures Blank(l) && Blank(r) && s == l + Trim(s) + r
    ensures Trim(s) != "" ==> !IsSpace(Trim(s)[0]) && !IsSpace(Trim(s)[|Trim(s)| - 1])
  {
    l := TrimStartSplits(s);
    r := TrimEndSplits(TrimStart(s));
    assert l + (Trim(s) + r) == l + Trim(s) + r;
    if Trim(s) != "" {
      assert Trim(s)[0] == TrimStart(s)[0];
    }
  }

  /** Trimming is exactly removal of the two blank margins. */
  lemma TrimSpec(s: string, core: string)
    ensures Trimmed(s, core) <==> Trim(s) == core
  {
    var l, r := TrimHasMargins(s);
    if Trimmed(s, core) {
      var l1, r1 :| Blank(l1) && Blank(r1) && s == l1 + core + r1;
      TrimOfMargins(l1, core, r1);
    }
  }

  /** A blank tail is invisible to `trim`. */
  lemma TrimIgnoresBlankTail(s: string, tail: string)
    requires Blank(tail)
    ensures Trim(s + tail) == Trim(s)
  {
    var l, r := TrimHasMargins(s);
    var core := Trim(s);
    TrimOfMargins(l, core, r + tail);
    assert s + tail == l + core + (r + tail);
  }

  /** Trimming leaves nothing exactly when there was nothing but white space, and a second trim changes nothing. */
  lemma TrimOfBlank(s: string)
    ensures Trim(s) == "" <==> Blank(s)
    ensures Trim(Trim(s)) == Trim(s)
  {
    var core := Trim(s);
    var l, r := TrimHasMargins(s);
    TrimOfMargins("", core, "");
    assert "" + core + "" == core;
    if Blank(s) {
      TrimStartBlank(s);
    }
    if core == "" {
      assert forall c :: c in s ==> c in l || c in r;
    }
  }
}
