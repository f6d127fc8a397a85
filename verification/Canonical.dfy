/** Two loops that put lists into canonical form. */
module Canonical {
  import opened Ordering

  // Schema violations: sorted by pointer, then message, without duplicates.

  datatype Violation = Violation(pointer: string, message: string)

  predicate ViolationBelow(a: Violation, b: Violation) {
    LexBelow(a.pointer, b.pointer) || (a.pointer == b.pointer && LexBelow(a.message, b.message))
  }

  lemma ViolationOrder()
    ensures StrictTotal(ViolationBelow)
  {
    LexIsTotal();
    hide LexBelow;
    forall a, b ensures !ViolationBelow(a, a) && (a != b ==> ViolationBelow(a, b) || ViolationBelow(b, a)) {
      assert a != b ==> a.pointer != b.pointer || a.message != b.message;
    }
    forall a, b, c | ViolationBelow(a, b) && ViolationBelow(b, c) ensures ViolationBelow(a, c) {
    }
  }

  /** No element belongs before an earlier one. */
  ghost predicate Sorted(s: seq<Violation>) {
    forall i, j :: 0 <= i < j < |s| ==> !ViolationBelow(s[j], s[i])
  }

  /** Where a violation goes in a sorted list, after its equals. */
  method Position(s: seq<Violation>, v: Violation) returns (p: nat)
    requires Sorted(s)
    ensures p <= |s|
    ensures forall i :: 0 <= i < p ==> !ViolationBelow(v, s[i])
    ensures forall i :: p <= i < |s| ==> ViolationBelow(v, s[i])
  {
    ViolationOrder();
    hide ViolationBelow;
    p := |s|;
    while p > 0 && ViolationBelow(v, s[p - 1])
      invariant p <= |s|
      invariant forall i :: p <= i < |s| ==> ViolationBelow(v, s[i])
    {
      p := p - 1;
    }
    if p > 0 {
      forall i | 0 <= i < p ensures !ViolationBelow(v, s[i]) {
        assert i == p - 1 || !ViolationBelow(s[p - 1], s[i]);
      }
    }
  }

  /** A stable sort: the same violations, none before one it belongs after. */
  method SortViolations(errors: seq<Violation>) returns (s: seq<Violation>)
    ensures Sorted(s) && multiset(s) == multiset(errors)
  {
    hide Sorted, ViolationBelow;
    s := [];
    NothingIsSorted();
    for i := 0 to |errors|
      invariant Sorted(s) && multiset(s) == multiset(errors[..i])
    {
      var p := Position(s, errors[i]);
      InsertKeepsSorted(s, errors[i], p);
      assert s == s[..p] + s[p..] && errors[..i + 1] == errors[..i] + [errors[i]];
      s := s[..p] + [errors[i]] + s[p..];
    }
    assert errors[..|errors|] == errors;
  }

  lemma NothingIsSorted()
    ensures Sorted([])
  {
  }

  lemma InsertKeepsSorted(s: seq<Violation>, v: Violation, p: nat)
    requires Sorted(s) && p <= |s|
    requires forall i :: 0 <= i < p ==> !ViolationBelow(v, s[i])
    requires forall i :: p <= i < |s| ==> ViolationBelow(v, s[i])
    ensures Sorted(s[..p] + [v] + s[p..])
  {
    ViolationOrder();
    hide ViolationBelow;
    var t := s[..p] + [v] + s[p..];
    forall i, j | 0 <= i < j < |t| ensures !ViolationBelow(t[j], t[i]) {
      var x := if i < p then s[i] else if i == p then v else s[i - 1];
      var y := if j < p then s[j] else if j == p then v else s[j - 1];
      assert t[i] == x && t[j] == y;
    }
  }

  lemma AppendGreater(r: seq<Violation>, last: Violation, v: Violation)
    requires Increasing(ViolationBelow, r) && r != [] && r[|r| - 1] == last
    requires last != v && !ViolationBelow(v, last)
    ensures Increasing(ViolationBelow, r + [v])
  {
    ViolationOrder();
    assert ViolationBelow(last, v);
    hide ViolationBelow;
  }

  /** `dedup` on a sorted list: of each run of equals one is left. */
  method Dedup(s: seq<Violation>) returns (r: seq<Violation>)
    requires Sorted(s)
    ensures Increasing(ViolationBelow, r)
    ensures forall v :: v in r <==> v in s
  {
    ViolationOrder();
    hide ViolationBelow;
    r := [];
    for i := 0 to |s|
      invariant Increasing(ViolationBelow, r)
      invariant forall v :: v in r <==> v in s[..i]
      invariant i == 0 <==> r == []
      invariant i > 0 ==> r[|r| - 1] == s[i - 1]
    {
      assert s[..i + 1] == s[..i] + [s[i]];
      if r == [] || r[|r| - 1] != s[i] {
        if i > 0 {
          AppendGreater(r, s[i - 1], s[i]);
        }
        r := r + [s[i]];
      }
    }
    assert s[..|s|] == s;
  }

  /** The canonical list: each distinct violation once, in order. */
  function Collected(errors: seq<Violation>): seq<Violation> {
    ViolationOrder();
    Ascending(ViolationBelow, set v | v in errors)
  }

  /** `collect`, after the validator has listed its errors in some order. */
  method Collect(errors: seq<Violation>) returns (r: seq<Violation>)
    ensures r == Collected(errors)
  {
    var sorted := SortViolations(errors);
    SameMembers(sorted, errors);
    r := Dedup(sorted);
    CollectedIsUnique(errors, r);
  }

  lemma SameMembers(a: seq<Violation>, b: seq<Violation>)
    requires multiset(a) == multiset(b)
    ensures forall v :: v in a <==> v in b
  {
    forall v ensures v in a <==> v in b {
      assert v in a <==> v in multiset(a);
      assert v in b <==> v in multiset(b);
    }
  }

  /** It is the only strictly increasing list of the errors' members, so neither the validator's order nor its repetitions show. */
  lemma CollectedIsUnique(errors: seq<Violation>, r: seq<Violation>)
    requires Increasing(ViolationBelow, r) && forall v :: v in r <==> v in errors
    ensures r == Collected(errors)
  {
    ViolationOrder();
    IncreasingIsUnique(ViolationBelow, r, Collected(errors));
  }

  /** Any two listings of the same errors are reported alike. */
  lemma ListingOrderIsInvisible(a: seq<Violation>, b: seq<Violation>)
    requires forall v :: v in a <==> v in b
    ensures Collected(a) == Collected(b)
  {
    ViolationOrder();
    CollectedIsUnique(b, Collected(a));
  }

  // Problems referenced by the tracks: each once, in order of first mention.

  datatype Track = Track(id: string, title: string, problems: seq<string>)

  function Mentions(tracks: seq<Track>): seq<string> {
    if tracks == [] then [] else Mentions(tracks[..|tracks| - 1]) + tracks[|tracks| - 1].problems
  }

  /** The ids of `mentions` at which nothing equal stands earlier. */
  function FirstMentions(mentions: seq<string>): seq<string> {
    if mentions == [] then []
    else
      var n := |mentions| - 1;
      if mentions[n] in mentions[..n] then FirstMentions(mentions[..n]) else FirstMentions(mentions[..n]) + [mentions[n]]
  }

  lemma {:induction false} FirstMentionsMembers(mentions: seq<string>)
    ensures forall id :: id in FirstMentions(mentions) <==> id in mentions
  {
    if mentions != [] {
      var n := |mentions| - 1;
      FirstMentionsMembers(mentions[..n]);
      assert mentions == mentions[..n] + [mentions[n]];
    }
  }

  lemma OneMoreMention(mentions: seq<string>, id: string)
    ensures FirstMentions(mentions + [id])
         == if id in FirstMentions(mentions) then FirstMentions(mentions) else FirstMentions(mentions) + [id]
  {
    FirstMentionsMembers(mentions);
    assert (mentions + [id])[..|mentions|] == mentions;
  }

  /** `referenced_problems` */
  method ReferencedProblems(tracks: seq<Track>) returns (seen: seq<string>)
    ensures seen == FirstMentions(Mentions(tracks))
  {
    hide FirstMentions;
    seen := [];
    assert FirstMentions(Mentions([])) == [] by { NoMentions(); }
    for t := 0 to |tracks|
      invariant seen == FirstMentions(Mentions(tracks[..t]))
    {
      var ids := tracks[t].problems;
      ghost var before := Mentions(tracks[..t]);
      assert before + ids[..0] == before;
      for i := 0 to |ids|
        invariant seen == FirstMentions(before + ids[..i])
      {
        OneMoreMention(before + ids[..i], ids[i]);
        assert before + ids[..i + 1] == before + ids[..i] + [ids[i]];
        if ids[i] !in seen {
          seen := seen + [ids[i]];
        }
      }
      assert ids[..|ids|] == ids && tracks[..t + 1][..t] == tracks[..t];
    }
    assert tracks[..|tracks|] == tracks;
  }

  lemma NoMentions()
    ensures FirstMentions([]) == []
  {
  }

  /** Position of the first occurrence. */
  function FirstIndex(mentions: seq<string>, id: string): (i: nat)
    requires id in mentions
    ensures i < |mentions| && mentions[i] == id && forall j :: 0 <= j < i ==> mentions[j] != id
  {
    if mentions[0] == id then 0 else 1 + FirstIndex(mentions[1..], id)
  }

  lemma {:induction false} FirstIndexOfOneMore(mentions: seq<string>, last: string, id: string)
    requires id in mentions + [last]
    ensures FirstIndex(mentions + [last], id) == if id in mentions then FirstIndex(mentions, id) else |mentions|
  {
    if mentions != [] && mentions[0] != id {
      assert (mentions + [last])[1..] == mentions[1..] + [last];
      FirstIndexOfOneMore(mentions[1..], last, id);
    }
  }

  /** The list is ordered by first occurrence in the tracks. */
  ghost predicate ByFirstMention(mentions: seq<string>, list: seq<string>) {
    && (forall id :: id in list <==> id in mentions)
    && forall i, j :: 0 <= i < j < |list| ==> FirstIndex(mentions, list[i]) < FirstIndex(mentions, list[j])
  }

  /** One more mention goes to the end of the list, or is there already. */
  lemma OneMoreInOrder(prefix: seq<string>, last: string, earlier: seq<string>)
    requires ByFirstMention(prefix, earlier)
    ensures ByFirstMention(prefix + [last], if last in earlier then earlier else earlier + [last])
  {
    var mentions := prefix + [last];
    var list := if last in earlier then earlier else earlier + [last];
    forall id | id in mentions ensures FirstIndex(mentions, id) == if id in prefix then FirstIndex(prefix, id) else |prefix| {
      FirstIndexOfOneMore(prefix, last, id);
    }
    forall i | 0 <= i < |earlier| ensures earlier[i] in prefix && FirstIndex(mentions, earlier[i]) == FirstIndex(prefix, earlier[i]) < |prefix| {
      assert earlier[i] in earlier;
    }
    hide FirstIndex;
    forall i, j | 0 <= i < j < |list| ensures FirstIndex(mentions, list[i]) < FirstIndex(mentions, list[j]) {
      assert list[i] == earlier[i];
      if j < |earlier| {
        assert list[j] == earlier[j];
      } else {
        assert last !in prefix;
      }
    }
    forall id ensures id in list <==> id in mentions {
      assert id in list <==> id in earlier || id == last;
    }
  }

  /** Every mentioned id, once each, in the order of first mention. */
  lemma {:induction false} FirstMentionsInOrder(mentions: seq<string>)
    ensures ByFirstMention(mentions, FirstMentions(mentions))
  {
    if mentions != [] {
      var n := |mentions| - 1;
      assert mentions == mentions[..n] + [mentions[n]];
      FirstMentionsInOrder(mentions[..n]);
      OneMoreMention(mentions[..n], mentions[n]);
      OneMoreInOrder(mentions[..n], mentions[n], FirstMentions(mentions[..n]));
      hide FirstMentions, ByFirstMention;
    }
  }

  /** No other list has that property. */
  lemma FirstMentionsUnique(mentions: seq<string>, list: seq<string>)
    requires ByFirstMention(mentions, list)
    ensures list == FirstMentions(mentions)
  {
    FirstMentionsInOrder(mentions);
    SameOrder(mentions, list, FirstMentions(mentions));
  }

  lemma {:induction false} SameOrder(mentions: seq<string>, a: seq<string>, b: seq<string>)
    requires forall id :: id in a <==> id in b
    requires forall i :: 0 <= i < |a| ==> a[i] in mentions
    requires forall i :: 0 <= i < |b| ==> b[i] in mentions
    requires forall i, j :: 0 <= i < j < |a| ==> FirstIndex(mentions, a[i]) < FirstIndex(mentions, a[j])
    requires forall i, j :: 0 <= i < j < |b| ==> FirstIndex(mentions, b[i]) < FirstIndex(mentions, b[j])
    ensures a == b
  {
    BelowIsTotal();
    var x := seq(|a|, i requires 0 <= i < |a| => FirstIndex(mentions, a[i]));
    var y := seq(|b|, i requires 0 <= i < |b| => FirstIndex(mentions, b[i]));
    forall k ensures k in x <==> k in y {
      if k in x {
        var i :| 0 <= i < |x| && x[i] == k;
        assert a[i] in a && a[i] in b;
        var j :| 0 <= j < |b| && b[j] == a[i];
        assert y[j] == k;
      }
      if k in y {
        var i :| 0 <= i < |y| && y[i] == k;
        assert b[i] in b && b[i] in a;
        var j :| 0 <= j < |a| && a[j] == b[i];
        assert x[j] == k;
      }
    }
    IncreasingIsUnique(Below, x, y);
    forall i | 0 <= i < |a| ensures a[i] == b[i] {
      assert x[i] == y[i];
      assert a[i] == mentions[x[i]] && b[i] == mentions[y[i]];
    }
  }

  /** The violation list in words: by pointer, and under one pointer by message. */
  lemma CollectedByPointer(errors: seq<Violation>, i: nat, j: nat)
    requires i < j < |Collected(errors)|
    ensures var a, b := Collected(errors)[i], Collected(errors)[j];
      (LexBelow(a.pointer, b.pointer) && a.pointer != b.pointer) || (a.pointer == b.pointer && LexBelow(a.message, b.message))
  {
    ViolationOrder();
    LexIsTotal();
    assert ViolationBelow(Collected(errors)[i], Collected(errors)[j]);
    hide Collected, LexBelow;
  }

  // Mentions, by track and place.

  /** Problem `p` of track `t` is the first mention of this id: no earlier track has it, nor an earlier place of this one. */
  ghost predicate FirstAt(tracks: seq<Track>, id: string, t: nat, p: nat) {
    && t < |tracks| && p < |tracks[t].problems| && tracks[t].problems[p] == id
    && id !in tracks[t].problems[..p]
    && forall u :: 0 <= u < t ==> id !in tracks[u].problems
  }

  lemma {:induction false} MentionsAreTracks(tracks: seq<Track>, id: string)
    ensures id in Mentions(tracks) <==> exists t :: 0 <= t < |tracks| && id in tracks[t].problems
  {
    if tracks != [] {
      var n := |tracks| - 1;
      MentionsAreTracks(tracks[..n], id);
      if id in Mentions(tracks[..n]) {
        var t :| 0 <= t < n && id in tracks[..n][t].problems;
        assert id in tracks[t].problems;
      }
      if t :| 0 <= t < |tracks| && id in tracks[t].problems {
        assert t == n || id in tracks[..n][t].problems;
      }
    }
  }

  lemma {:induction false} FirstIndexSkips(a: seq<string>, b: seq<string>, id: string)
    requires id !in a && id in b
    ensures id in a + b && FirstIndex(a + b, id) == |a| + FirstIndex(b, id)
  {
    if a == [] {
      assert a + b == b;
    } else {
      assert (a + b)[1..] == a[1..] + b && (a + b)[0] == a[0];
      FirstIndexSkips(a[1..], b, id);
    }
  }

  lemma {:induction false} FirstIndexStays(a: seq<string>, b: seq<string>, id: string)
    requires id in a
    ensures FirstIndex(a + b, id) == FirstIndex(a, id)
  {
    assert (a + b)[0] == a[0];
    if a[0] != id {
      assert (a + b)[1..] == a[1..] + b;
      FirstIndexStays(a[1..], b, id);
    }
  }

  lemma FirstIndexIs(list: seq<string>, id: string, p: nat)
    requires p < |list| && list[p] == id && id !in list[..p]
    ensures FirstIndex(list, id) == p
  {
    assert forall q :: 0 <= q < p ==> list[q] in list[..p];
  }

  /** A first mention stands in the flat list after all earlier tracks, at its place in its own. */
  lemma {:induction false} FirstAtIsFirstIndex(tracks: seq<Track>, id: string, t: nat, p: nat)
    requires FirstAt(tracks, id, t, p)
    ensures id in Mentions(tracks) && FirstIndex(Mentions(tracks), id) == |Mentions(tracks[..t])| + p
  {
    var n := |tracks| - 1;
    var before, last := Mentions(tracks[..n]), tracks[n].problems;
    MentionsAreTracks(tracks, id);
    if t == n {
      MentionsAreTracks(tracks[..n], id);
      FirstIndexIs(last, id, p);
      FirstIndexSkips(before, last, id);
    } else {
      assert tracks[..n][..t] == tracks[..t];
      FirstAtIsFirstIndex(tracks[..n], id, t, p);
      FirstIndexStays(before, last, id);
    }
  }

  lemma {:induction false} MentionsGrow(tracks: seq<Track>, t: nat, u: nat)
    requires t < u <= |tracks|
    ensures |Mentions(tracks[..t])| + |tracks[t].problems| <= |Mentions(tracks[..u])|
  {
    assert tracks[..u][..u - 1] == tracks[..u - 1];
    if t < u - 1 {
      MentionsGrow(tracks, t, u - 1);
    }
  }

  /** The referenced problems: those of any track, and in the order of their first mention, track by track, place by place. */
  lemma ReferencedInDeclarationOrder(tracks: seq<Track>)
    ensures var list := FirstMentions(Mentions(tracks));
      && (forall id :: id in list <==> exists t :: 0 <= t < |tracks| && id in tracks[t].problems)
      && (forall i, j, t, p, u, q :: 0 <= i < j < |list| && FirstAt(tracks, list[i], t, p) && FirstAt(tracks, list[j], u, q) ==>
            t < u || (t == u && p < q))
  {
    var list := FirstMentions(Mentions(tracks));
    FirstMentionsInOrder(Mentions(tracks));
    forall id ensures id in list <==> exists t :: 0 <= t < |tracks| && id in tracks[t].problems {
      MentionsAreTracks(tracks, id);
    }
    forall i, j, t, p, u, q | 0 <= i < j < |list| && FirstAt(tracks, list[i], t, p) && FirstAt(tracks, list[j], u, q)
      ensures t < u || (t == u && p < q)
    {
      FirstAtIsFirstIndex(tracks, list[i], t, p);
      FirstAtIsFirstIndex(tracks, list[j], u, q);
      if u < t {
        MentionsGrow(tracks, u, t);
      }
    }
  }
}
