/** The body of an install request and what the control plane lets through of it
    (model_requests.py 359-383). */
module RequestBodies {
  import opened ModelRequests
  import Text

  const MAX_REPO_CHARS := 200
  const MAX_REVISION_CHARS := 100

  /** `data.get(...)` of the decoded body. */
  datatype Field = Absent | Chars(s: string) | Other(truthy: bool)

  datatype Body = NotJson | NotObject | Fields(repo: Field, revision: Field)

  predicate IsRefChar(c: char) { Text.IsAlnum(c) || c in "._/-" }

  predicate IsRevision(s: string)
  {
    s != "" && Text.IsAlnum(s[0]) && forall i :: 1 <= i < |s| ==> IsRefChar(s[i])
  }

  /** As for repos, a final newline passes the pattern. */
  predicate MatchesRevision(s: string)
  {
    IsRevision(s) || (Text.EndsInNewline(s) && IsRevision(s[..|s| - 1]))
  }

  predicate HasDots(s: string) { exists i :: 0 <= i < |s| - 1 && s[i] == '.' == s[i + 1] }

  predicate GoodRepo(f: Field)
  {
    f.Chars? && |f.s| <= MAX_REPO_CHARS && MatchesRepo(Text.Strip(f.s))
  }

  /** Falsy revisions count as none. */
  predicate GoodRevision(f: Field)
  {
    match f
    case Absent => true
    case Other(truthy) => !truthy
    case Chars(s) => s == "" || (|s| <= MAX_REVISION_CHARS && !HasDots(s) && MatchesRevision(s))
  }

  predicate GoodBody(body: Body)
  {
    body.Fields? && GoodRepo(body.repo) && GoodRevision(body.revision)
  }

  function Repo(body: Body): string
  {
    if body.Fields? && body.repo.Chars? then Text.Strip(body.repo.s) else ""
  }

  /** What is recorded as the revision; the empty text for none. */
  function Revision(body: Body): string
  {
    if body.Fields? && body.revision.Chars? then body.revision.s else ""
  }

  /** The control plane's own switch, allow-list and cap. */
  datatype Control = Control(cap: int, enabled: bool, allowlist: set<string>)

  predicate Passes(control: Control, body: Body)
  {
    GoodBody(body) && IsRepoAllowed(control.allowlist, Repo(body))
  }

  // ---------- repos ----------

  /** Because the text is stripped first, the pattern's tolerance of a final newline never
      shows here: a repo let through is exactly `org/name`, within the length limit. */
  lemma GoodRepoIsClean(body: Body)
    requires GoodBody(body)
    ensures IsRepoName(Repo(body)) && |Repo(body)| <= MAX_REPO_CHARS
  {
    var a, b := Text.StripTakes(body.repo.s);
  }

  lemma RepoNameEnds(r: string)
    requires IsRepoName(r)
    ensures |r| >= 3 && !Text.IsBlank(r[0]) && !Text.IsBlank(r[|r| - 1])
  {
    var i :| 0 <= i < |r| && r[i] == '/' && Text.IsSlug(r[..i]) && Text.IsSlug(r[i + 1..]);
    var org, name := r[..i], r[i + 1..];
    assert r[0] == org[0];
    assert r[|r| - 1] == name[|name| - 1] && name[|name| - 1] in name;
  }

  /** The plainest body that asks for a repo. */
  function Asking(repo: string): Body { Fields(Chars(repo), Absent) }

  lemma CleanRepoIsGood(r: string)
    requires IsRepoName(r) && |r| <= MAX_REPO_CHARS
    ensures GoodBody(Asking(r)) && Repo(Asking(r)) == r
  {
    assert "" + r + "" == r;
    PaddedRepoIsGood("", r, "");
  }

  /** A repo name with white space around it is good, and read as that name. */
  lemma PaddedRepoIsGood(a: string, r: string, b: string)
    requires Text.AllBlank(a) && Text.AllBlank(b) && IsRepoName(r) && |a + r + b| <= MAX_REPO_CHARS
    ensures GoodRepo(Chars(a + r + b)) && Text.Strip(a + r + b) == r
  {
    RepoNameEnds(r);
    Text.StripOf(a, r, b);
  }

  /** Which repos are let through, and as what. */
  lemma GoodRepoExactly(f: Field)
    ensures GoodRepo(f) <==>
      (f.Chars? && |f.s| <= 200 &&
       exists a, r, b :: Text.AllBlank(a) && Text.AllBlank(b) && IsRepoName(r) && f.s == a + r + b)
  {
    if GoodRepo(f) {
      var a, b := Text.StripTakes(f.s);
      assert IsRepoName(Text.Strip(f.s)) && f.s == a + Text.Strip(f.s) + b;
    }
    if f.Chars? && |f.s| <= MAX_REPO_CHARS {
      if a, r, b :| Text.AllBlank(a) && Text.AllBlank(b) && IsRepoName(r) && f.s == a + r + b {
        PaddedRepoIsGood(a, r, b);
      }
    }
  }

  /** The allow-list lets some repo in. */
  ghost predicate LetsSomeIn(allowlist: set<string>)
  {
    exists r :: IsRepoName(r) && |r| <= MAX_REPO_CHARS && IsRepoAllowed(allowlist, r)
  }

  /** Some body passes exactly if the allow-list lets some repo in. */
  lemma SomeBodyPasses(control: Control)
    ensures (exists body :: Passes(control, body)) <==> LetsSomeIn(control.allowlist)
  {
    if body :| Passes(control, body) {
      GoodRepoIsClean(body);
      assert IsRepoAllowed(control.allowlist, Repo(body));
    }
    if LetsSomeIn(control.allowlist) {
      var r :| IsRepoName(r) && |r| <= MAX_REPO_CHARS && IsRepoAllowed(control.allowlist, r);
      CleanRepoIsGood(r);
      assert Passes(control, Asking(r));
    }
  }

  /** A repo name is two slugs with a slash between. */
  lemma RepoNameExactly(s: string)
    ensures IsRepoName(s) <==> exists org, name :: Text.IsSlug(org) && Text.IsSlug(name) && s == org + "/" + name
  {
    if i :| 0 <= i < |s| && s[i] == '/' && Text.IsSlug(s[..i]) && Text.IsSlug(s[i + 1..]) {
      assert s == s[..i] + "/" + s[i + 1..];
    }
    if org, name :| Text.IsSlug(org) && Text.IsSlug(name) && s == org + "/" + name {
      assert s[|org|] == '/' && s[..|org|] == org && s[|org| + 1..] == name;
    }
  }

  /** The pattern matches repo names, and each with a newline after it. */
  lemma MatchesRepoExactly(s: string)
    ensures MatchesRepo(s) <==> IsRepoName(s) || exists v :: IsRepoName(v) && s == v + "\n"
  {
    if Text.EndsInNewline(s) {
      assert s == s[..|s| - 1] + "\n";
    }
    if v :| IsRepoName(v) && s == v + "\n" {
      assert s[..|s| - 1] == v;
    }
  }

  // ---------- revisions ----------

  /** Which revisions are let through. */
  lemma GoodRevisionExactly(f: Field)
    ensures GoodRevision(f) <==>
      (f == Absent || f == Other(false) || f == Chars("") ||
       (f.Chars? && |f.s| <= 100 && (forall i :: 0 <= i < |f.s| - 1 ==> f.s[i] != '.' || f.s[i + 1] != '.')
        && exists v :: IsRevision(v) && (f.s == v || f.s == v + "\n")))
  {
    if f.Chars? {
      if Text.EndsInNewline(f.s) {
        assert f.s == f.s[..|f.s| - 1] + "\n";
      }
      if v :| IsRevision(v) && f.s == v + "\n" {
        assert f.s[..|f.s| - 1] == v;
      }
    }
  }

  /** A revision let through is none or a plain reference, exactly if it does not end in a
      newline, which the pattern lets pass. */
  lemma RevisionExactly(body: Body)
    requires GoodBody(body)
    ensures (Revision(body) == "" || IsRevision(Revision(body))) <==> !Text.EndsInNewline(Revision(body))
  {
    var r := Revision(body);
    if IsRevision(r) {
      assert |r| == 1 || IsRefChar(r[|r| - 1]);
    }
  }

  lemma NoDotsBeforeNewline(s: string)
    requires !HasDots(s)
    ensures !HasDots(s + "\n")
  {
  }

  lemma MatchesBeforeNewline(s: string)
    requires IsRevision(s)
    ensures MatchesRevision(s + "\n")
  {
    var r := s + "\n";
    assert r[..|r| - 1] == s && Text.EndsInNewline(r);
  }

  /** And a good revision still passes with a newline after it. */
  lemma NewlineRevisionPasses(repo: string, revision: string)
    requires IsRepoName(repo) && |repo| <= MAX_REPO_CHARS
    requires IsRevision(revision) && |revision| < MAX_REVISION_CHARS && !HasDots(revision)
    ensures var body := Fields(Chars(repo), Chars(revision + "\n"));
      GoodBody(body) && Repo(body) == repo && Revision(body) == revision + "\n"
  {
    CleanRepoIsGood(repo);
    NoDotsBeforeNewline(revision);
    MatchesBeforeNewline(revision);
  }
}
