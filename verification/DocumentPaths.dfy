/**
 Storage keys of the documents bucket.

   legacy          documents/{userId}/{file}
   company-scoped  documents/{companyId}/{userId}/{file}

 Company ids are UUIDs: non-empty and without a slash.
 */
module DocumentPaths {
  import opened Wrappers

  type CompanyId = s: string | s != "" && '/' !in s witness "c"

  const ROOT := "documents/"

  function Scope(company: CompanyId): string {
    ROOT + company + "/"
  }

  predicate IsCompanyScoped(path: string, company: CompanyId) {
    Scope(company) <= path
  }

  predicate IsLegacyDocumentPath(path: string) {
    ROOT <= path
  }

  function CompanyScopedPath(path: string, company: CompanyId): Option<string> {
    if IsCompanyScoped(path, company) then None
    else if !IsLegacyDocumentPath(path) then None
    else Some(Scope(company) + path[|ROOT|..])
  }

  function LegacyPathFor(path: string, company: CompanyId): Option<string> {
    if !IsCompanyScoped(path, company) then None
    else Some(ROOT + path[|Scope(company)|..])
  }

  /** Scoping a key and deriving the legacy key again gives the key back. */
  lemma ScopeThenDerive(path: string, company: CompanyId)
    requires CompanyScopedPath(path, company).Some?
    ensures var scoped := CompanyScopedPath(path, company).value;
            && IsCompanyScoped(scoped, company)
            && LegacyPathFor(scoped, company) == Some(path)
            && IsLegacyDocumentPath(scoped)
            && |scoped| > |path|
  {
    var scoped := CompanyScopedPath(path, company).value;
    assert scoped[|Scope(company)|..] == path[|ROOT|..];
    assert path == ROOT + path[|ROOT|..];
  }

  /** The other direction holds exactly when the derived key is not itself scoped to the company. */
  lemma DeriveThenScope(path: string, company: CompanyId)
    requires IsCompanyScoped(path, company)
    ensures var legacy := LegacyPathFor(path, company).value;
            CompanyScopedPath(legacy, company) == Some(path) <==> !IsCompanyScoped(legacy, company)
  {
    var legacy := LegacyPathFor(path, company).value;
    assert legacy[|ROOT|..] == path[|Scope(company)|..];
    assert path == Scope(company) + path[|Scope(company)|..];
  }

  /** So the inverse is not exact on every key: one whose remainder repeats the company segment is lost. */
  lemma DeriveThenScopeFails()
    ensures var path := "documents/c/c/x";
            && LegacyPathFor(path, "c") == Some("documents/c/x")
            && CompanyScopedPath("documents/c/x", "c") == None
  {
    var path := "documents/c/c/x";
    assert Scope("c") == "documents/c/";
    assert path[|Scope("c")|..] == "c/x";
    assert ROOT + "c/x" == "documents/c/x";
    assert "documents/c/x" == Scope("c") + "x";
  }

  /** A key is scoped to at most one company. */
  lemma ScopeIsUnique(path: string, c: CompanyId, d: CompanyId)
    requires IsCompanyScoped(path, c) && IsCompanyScoped(path, d)
    ensures c == d
  {
    hide Scope, IsCompanyScoped;
    FirstSegment(path, c);
    FirstSegment(path, d);
    var rest := path[|ROOT|..];
    NoSlashWithin(rest, c, d);
    NoSlashWithin(rest, d, c);
    assert c == rest[..|c|] && d == rest[..|d|];
  }

  lemma NoSlashWithin(rest: string, first: string, other: string)
    requires first < rest && rest[|first|] == '/' && other <= rest
    ensures |first| < |other| ==> '/' in other
  {
    if |first| < |other| {
      assert other[|first|] == rest[|first|];
    }
  }

  /** A scoped key goes on with the company id and a slash. */
  lemma FirstSegment(path: string, company: CompanyId)
    requires IsCompanyScoped(path, company)
    ensures |ROOT| <= |path|
    ensures var rest := path[|ROOT|..]; company < rest && rest[|company|] == '/'
  {
    var rest := path[|ROOT|..];
    assert forall i | 0 <= i < |company| + 1 :: rest[i] == path[|ROOT| + i] == Scope(company)[|ROOT| + i];
  }

  /** Different (key, company) pairs never collide on one scoped key. */
  lemma ScopedPathsAreInjective(p: string, c: CompanyId, q: string, d: CompanyId)
    requires CompanyScopedPath(p, c).Some?
    requires CompanyScopedPath(p, c) == CompanyScopedPath(q, d)
    ensures p == q && c == d
  {
    ScopeThenDerive(p, c);
    ScopeThenDerive(q, d);
    ScopeIsUnique(CompanyScopedPath(p, c).value, c, d);
  }
}
