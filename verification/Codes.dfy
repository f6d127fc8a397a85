/** The enumerations stored as `CHECK`-constrained text, and their codecs. */
module Codes {
  import opened Prelude

  datatype Verdict = Ac | Wa | Tle | Mle | Re | Ce | Se | Ie {
    predicate IsAccepted() { Ac? }

    /** The judge's or the author's fault rather than the learner's. */
    predicate IsInfrastructure() { Se? || Ie? }

    predicate CountsAgainstUser() { !IsInfrastructure() }

    /** The guard of the progress bookkeeping in `finish_submission`. */
    predicate Counts() { CountsAgainstUser() || IsAccepted() }
  }

  datatype Language = Rust | Py | Cpp

  datatype Difficulty = Easy | Medium | Hard

  datatype Role = Learner | Author | Admin

  datatype Status = Queued | Preparing | Building | Booting | Running | Done {
    predicate IsTerminal() { Done? }

    /** Forward moves, plus the one backwards edge: an active attempt starts over at PREPARING. */
    predicate CanTransitionTo(next: Status) {
      match (this, next)
      case (Done, _) => false
      case (_, Queued) => false
      case (Preparing, Preparing) => true
      case (Building, Preparing) => true
      case (Booting, Preparing) => true
      case (Running, Preparing) => true
      case (Queued, Preparing) => true
      case (Preparing, _) => true
      case (Building, _) => !next.Building?
      case (Booting, _) => next.Running? || next.Done?
      case (Running, _) => next.Done?
      case _ => false
    }
  }

  const VERDICTS: seq<Verdict> := [Ac, Wa, Tle, Mle, Re, Ce, Se, Ie]
  const LANGUAGES: seq<Language> := [Rust, Py, Cpp]
  const ROLES: seq<Role> := [Learner, Author, Admin]
  const STATUSES: seq<Status> := [Queued, Preparing, Building, Booting, Running, Done]

  function VerdictText(v: Verdict): string {
    match v
    case Ac => "AC" case Wa => "WA" case Tle => "TLE" case Mle => "MLE"
    case Re => "RE" case Ce => "CE" case Se => "SE" case Ie => "IE"
  }

  function LanguageText(l: Language): string {
    match l case Rust => "rust" case Py => "py" case Cpp => "cpp"
  }

  function DifficultyText(d: Difficulty): string {
    match d case Easy => "easy" case Medium => "medium" case Hard => "hard"
  }

  function RoleText(r: Role): string {
    match r case Learner => "learner" case Author => "author" case Admin => "admin"
  }

  function StatusText(s: Status): string {
    match s
    case Queued => "QUEUED" case Preparing => "PREPARING" case Building => "BUILDING"
    case Booting => "BOOTING" case Running => "RUNNING" case Done => "DONE"
  }

  /** The first member of `all` with this text. */
  function FindByName<T>(all: seq<T>, name: T -> string, value: string): (r: Option<T>)
    ensures r.Some? ==> r.value in all && name(r.value) == value
    ensures r.None? ==> forall x :: x in all ==> name(x) != value
  {
    if all == [] then None
    else if name(all[0]) == value then Some(all[0])
    else FindByName(all[1..], name, value)
  }

  /** Every verdict but the judge's and the author's own failures counts; only AC accepts. */
  lemma WhatCounts(v: Verdict)
    ensures v.Counts() <==> v != Se && v != Ie
    ensures v.IsAccepted() <==> v == Ac
  {
  }

  /** The lifecycle, edge by edge. */
  const EDGES: set<(Status, Status)> := {
    (Queued, Preparing),
    (Preparing, Preparing), (Preparing, Building), (Preparing, Booting), (Preparing, Running), (Preparing, Done),
    (Building, Preparing), (Building, Booting), (Building, Running), (Building, Done),
    (Booting, Preparing), (Booting, Running), (Booting, Done),
    (Running, Preparing), (Running, Done)
  }

  lemma MovesAreEdges(s: Status, next: Status)
    ensures s.CanTransitionTo(next) <==> (s, next) in EDGES
  {
    match s
    case Queued => assert (Queued, next) in EDGES <==> next.Preparing?;
    case Preparing => assert (Preparing, next) in EDGES <==> !next.Queued?;
    case Building => assert (Building, next) in EDGES <==> !next.Queued? && !next.Building?;
    case Booting => assert (Booting, next) in EDGES <==> next.Preparing? || next.Running? || next.Done?;
    case Running => assert (Running, next) in EDGES <==> next.Preparing? || next.Done?;
    case Done => assert (Done, next) !in EDGES;
  }

  // The stored texts, read back: this is the format on disk.

  lemma VerdictsOnDisk()
    ensures ParseVerdict("AC") == Some(Ac) && ParseVerdict("WA") == Some(Wa) && ParseVerdict("TLE") == Some(Tle)
    ensures ParseVerdict("MLE") == Some(Mle) && ParseVerdict("RE") == Some(Re) && ParseVerdict("CE") == Some(Ce)
    ensures ParseVerdict("SE") == Some(Se) && ParseVerdict("IE") == Some(Ie)
  {
    assert VerdictText(Ac) == "AC" && VerdictText(Wa) == "WA" && VerdictText(Tle) == "TLE" && VerdictText(Mle) == "MLE";
    assert VerdictText(Re) == "RE" && VerdictText(Ce) == "CE" && VerdictText(Se) == "SE" && VerdictText(Ie) == "IE";
  }

  lemma StatusesOnDisk()
    ensures ParseStatus("QUEUED") == Some(Queued) && ParseStatus("PREPARING") == Some(Preparing)
    ensures ParseStatus("BUILDING") == Some(Building) && ParseStatus("BOOTING") == Some(Booting)
    ensures ParseStatus("RUNNING") == Some(Running) && ParseStatus("DONE") == Some(Done)
  {
    assert StatusText(Queued) == "QUEUED" && StatusText(Preparing) == "PREPARING" && StatusText(Building) == "BUILDING";
    assert StatusText(Booting) == "BOOTING" && StatusText(Running) == "RUNNING" && StatusText(Done) == "DONE";
  }

  lemma LanguagesOnDisk()
    ensures ParseLanguage("rust") == Some(Rust) && ParseLanguage("py") == Some(Py) && ParseLanguage("cpp") == Some(Cpp)
  {
    assert LanguageText(Rust) == "rust" && LanguageText(Py) == "py" && LanguageText(Cpp) == "cpp";
  }

  lemma RolesOnDisk()
    ensures ParseRole("learner") == Some(Learner) && ParseRole("author") == Some(Author) && ParseRole("admin") == Some(Admin)
  {
    assert RoleText(Learner) == "learner" && RoleText(Author) == "author" && RoleText(Admin) == "admin";
  }

  /** Terminal means that no move leaves. */
  lemma TerminalIffNoMove(s: Status)
    ensures s.IsTerminal() <==> forall next: Status :: !s.CanTransitionTo(next)
  {
    if !s.IsTerminal() {
      assert s.CanTransitionTo(Preparing);
    }
  }

  /** Distinct verdicts have distinct codes. */
  lemma VerdictTextInjective(a: Verdict, b: Verdict)
    ensures VerdictText(a) == VerdictText(b) ==> a == b
  {
    var s, t := VerdictText(a), VerdictText(b);
    assert s == t ==> |s| == |t| && s[0] == t[0] && s[1] == t[1];
  }

  lemma LanguageTextInjective(a: Language, b: Language)
    ensures LanguageText(a) == LanguageText(b) ==> a == b
  {
    var s, t := LanguageText(a), LanguageText(b);
    assert s == t ==> |s| == |t| && s[0] == t[0];
  }

  lemma RoleTextInjective(a: Role, b: Role)
    ensures RoleText(a) == RoleText(b) ==> a == b
  {
    var s, t := RoleText(a), RoleText(b);
    assert s == t ==> |s| == |t| && s[0] == t[0] && s[1] == t[1];
  }

  lemma StatusTextInjective(a: Status, b: Status)
    ensures StatusText(a) == StatusText(b) ==> a == b
  {
    var s, t := StatusText(a), StatusText(b);
    assert s == t ==> |s| == |t| && s[0] == t[0] && s[1] == t[1];
  }

  function ParseVerdict(value: string): (r: Option<Verdict>)
    ensures forall v :: r == Some(v) <==> VerdictText(v) == value
  {
    var r := FindByName(VERDICTS, VerdictText, value);
    assert forall v: Verdict :: v in VERDICTS by { VerdictsComplete(); }
    assert forall v | r == Some(v) :: forall w :: VerdictText(w) == value ==> w == v by {
      forall v, w | r == Some(v) && VerdictText(w) == value ensures w == v { VerdictTextInjective(v, w); }
    }
    r
  }

  lemma VerdictsComplete()
    ensures forall v: Verdict :: v in VERDICTS
  {
    forall v: Verdict ensures v in VERDICTS {
      var i := match v case Ac => 0 case Wa => 1 case Tle => 2 case Mle => 3 case Re => 4 case Ce => 5 case Se => 6 case Ie => 7;
      assert VERDICTS[i] == v;
    }
  }

  function ParseLanguage(value: string): (r: Option<Language>)
    ensures forall l :: r == Some(l) <==> LanguageText(l) == value
  {
    var r := FindByName(LANGUAGES, LanguageText, value);
    assert LANGUAGES[0] == Rust && LANGUAGES[1] == Py && LANGUAGES[2] == Cpp;
    assert forall v | r == Some(v) :: forall w :: LanguageText(w) == value ==> w == v by {
      forall v, w | r == Some(v) && LanguageText(w) == value ensures w == v { LanguageTextInjective(v, w); }
    }
    r
  }

  function ParseRole(value: string): (r: Option<Role>)
    ensures forall l :: r == Some(l) <==> RoleText(l) == value
  {
    var r := FindByName(ROLES, RoleText, value);
    assert ROLES[0] == Learner && ROLES[1] == Author && ROLES[2] == Admin;
    assert forall v | r == Some(v) :: forall w :: RoleText(w) == value ==> w == v by {
      forall v, w | r == Some(v) && RoleText(w) == value ensures w == v { RoleTextInjective(v, w); }
    }
    r
  }

  function ParseStatus(value: string): (r: Option<Status>)
    ensures forall s :: r == Some(s) <==> StatusText(s) == value
  {
    var r := FindByName(STATUSES, StatusText, value);
    assert forall s: Status :: s in STATUSES by { StatusesComplete(); }
    assert forall v | r == Some(v) :: forall w :: StatusText(w) == value ==> w == v by {
      forall v, w | r == Some(v) && StatusText(w) == value ensures w == v { StatusTextInjective(v, w); }
    }
    r
  }

  lemma StatusesComplete()
    ensures forall s: Status :: s in STATUSES
  {
    forall s: Status ensures s in STATUSES {
      var i := match s case Queued => 0 case Preparing => 1 case Building => 2 case Booting => 3 case Running => 4 case Done => 5;
      assert STATUSES[i] == s;
    }
  }
}
