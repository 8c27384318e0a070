/** internal/protectionblueprints/match.go: which protection templates a project's evidence
    supports, how complete each match is, and in what order they are reported. */
module BlueprintCatalog {
  import opened Ordering
  import opened Sequences
  import opened Text
  import opened Wrappers
  import ImageRef
  import RoleAssignment

  datatype Plan = Plan(classification: string, consistency: string, requiredData: seq<string>,
                       databaseStrategy: seq<string>, includeHints: seq<string>, excludeHints: seq<string>,
                       warnings: seq<string>, restoreChecks: seq<string>)

  datatype Template = Template(id: string, name: string, version: string, category: string,
                               requiredImageGroups: seq<seq<string>>, requiredTechnologies: seq<string>,
                               optionalImageGroups: seq<seq<string>>, optionalTechnologies: seq<string>,
                               plan: Plan)

  datatype Evidence = Evidence(images: seq<string>, technologies: seq<string>)

  /** One component a template describes; the Go code renders each as a sentence. */
  datatype Component =
    | RequiredRole(group: seq<string>)
    | RequiredTechnology(technology: string)
    | OptionalImage(group: seq<string>)
    | OptionalTechnology(technology: string)

  datatype Result = Result(templateId: string, name: string, version: string, category: string, score: int,
                           matched: seq<Component>, missing: seq<Component>, plan: Plan)

  function Normal(value: string): string {
    ToLower(TrimSpace(value))
  }

  function NonEmptyNormal(value: string): Option<string> {
    if Normal(value) != "" then Some(Normal(value)) else None
  }

  /** The white space around a value goes, and what is left is in lower case. */
  lemma NormalMeans(value: string) returns (before: string, core: string, after: string)
    ensures value == before + core + after && AllOf(before, IsSpace) && AllOf(after, IsSpace)
    ensures core != "" ==> !IsSpace(core[0]) && !IsSpace(core[|core| - 1])
    ensures |Normal(value)| == |core|
    ensures forall i | 0 <= i < |core| ::
              Normal(value)[i] == if 'A' <= core[i] <= 'Z' then 'a' + (core[i] - 'A') else core[i]
  {
    before, core, after := TrimMeans(value, IsSpace);
  }

  method Normalize(values: seq<string>) returns (out: seq<string>)
    ensures out == Collect(NonEmptyNormal, values)
  {
    out := [];
    for i := 0 to |values|
      invariant out == Collect(NonEmptyNormal, values[..i])
    {
      CollectSnoc(NonEmptyNormal, values, i);
      var value := Normal(values[i]);
      if value != "" {
        out := out + [value];
      }
    }
    assert values[..|values|] == values;
  }

  method Contains(values: seq<string>, wanted: string) returns (found: bool)
    ensures found <==> Normal(wanted) in values
  {
    var normal := Normal(wanted);
    for i := 0 to |values|
      invariant normal !in values[..i]
    {
      if values[i] == normal {
        return true;
      }
    }
    return false;
  }

  predicate SomeImageMatches(paths: seq<string>, patterns: seq<string>) {
    exists path | path in paths :: ImageRef.MatchesSome(path, patterns)
  }

  method AnyImageMatches(paths: seq<string>, patterns: seq<string>) returns (found: bool)
    ensures found <==> SomeImageMatches(paths, patterns)
  {
    for i := 0 to |paths|
      invariant forall path | path in paths[..i] :: !ImageRef.MatchesSome(path, patterns)
    {
      found := ImageRef.MatchesAny(paths[i], patterns);
      if found {
        return true;
      }
    }
    return false;
  }

  // ----- what a match is -----

  /** The optional components of a template, in reporting order. */
  function Optional(t: Template): (r: seq<Component>)
    ensures |r| == |t.optionalImageGroups| + |t.optionalTechnologies|
    ensures forall k | 0 <= k < |r| ::
              r[k] == if k < |t.optionalImageGroups| then OptionalImage(t.optionalImageGroups[k])
                      else OptionalTechnology(t.optionalTechnologies[k - |t.optionalImageGroups|])
  {
    seq(|t.optionalImageGroups|, i requires 0 <= i < |t.optionalImageGroups| => OptionalImage(t.optionalImageGroups[i]))
    + seq(|t.optionalTechnologies|, i requires 0 <= i < |t.optionalTechnologies| =>
        OptionalTechnology(t.optionalTechnologies[i]))
  }

  function Required(t: Template): (r: seq<Component>)
    ensures |r| == |t.requiredImageGroups| + |t.requiredTechnologies|
    ensures forall k | 0 <= k < |r| ::
              r[k] == if k < |t.requiredImageGroups| then RequiredRole(t.requiredImageGroups[k])
                      else RequiredTechnology(t.requiredTechnologies[k - |t.requiredImageGroups|])
  {
    seq(|t.requiredImageGroups|, i requires 0 <= i < |t.requiredImageGroups| => RequiredRole(t.requiredImageGroups[i]))
    + seq(|t.requiredTechnologies|, i requires 0 <= i < |t.requiredTechnologies| =>
        RequiredTechnology(t.requiredTechnologies[i]))
  }

  predicate Evidenced(paths: seq<string>, technologies: seq<string>, c: Component) {
    match c
    case RequiredRole(group) => SomeImageMatches(paths, group)
    case OptionalImage(group) => SomeImageMatches(paths, group)
    case RequiredTechnology(technology) => Normal(technology) in technologies
    case OptionalTechnology(technology) => Normal(technology) in technologies
  }

  /** The components of `cs` whose evidence is present (`wanted`) or absent (`!wanted`). */
  function Select(paths: seq<string>, technologies: seq<string>, cs: seq<Component>, wanted: bool): (r: seq<Component>)
    ensures forall c | c in r :: c in cs && Evidenced(paths, technologies, c) == wanted
  {
    if cs == [] then []
    else
      var n := |cs| - 1;
      Select(paths, technologies, cs[..n], wanted)
      + if Evidenced(paths, technologies, cs[n]) == wanted then [cs[n]] else []
  }

  lemma SelectSnoc(paths: seq<string>, technologies: seq<string>, cs: seq<Component>, i: nat, wanted: bool)
    requires i < |cs|
    ensures Select(paths, technologies, cs[..i + 1], wanted) ==
            Select(paths, technologies, cs[..i], wanted)
            + if Evidenced(paths, technologies, cs[i]) == wanted then [cs[i]] else []
  {
    assert cs[..i + 1][..i] == cs[..i];
  }

  lemma {:induction false} SelectPartitions(paths: seq<string>, technologies: seq<string>, cs: seq<Component>)
    ensures |Select(paths, technologies, cs, true)| + |Select(paths, technologies, cs, false)| == |cs|
  {
    if cs != [] {
      SelectPartitions(paths, technologies, cs[..|cs| - 1]);
    }
  }

  /** Eligible: distinct images for all required roles, and every required technology. */
  ghost predicate Eligible(t: Template, paths: seq<string>, technologies: seq<string>) {
    && RoleAssignment.Fillable(paths, t.requiredImageGroups)
    && forall technology | technology in t.requiredTechnologies :: Normal(technology) in technologies
  }

  /** Share of the described components that is present, rounded down. */
  function Score(present: nat, total: nat): int
    requires present <= total
  {
    if total > 0 then present * 100 / total else 100
  }

  ghost function Outcome(t: Template, paths: seq<string>, technologies: seq<string>): Option<Result> {
    if Eligible(t, paths, technologies) then
      var found := Select(paths, technologies, Optional(t), true);
      SelectPartitions(paths, technologies, Optional(t));
      Some(Result(t.id, t.name, t.version, t.category,
                  Score(|Required(t)| + |found|, |Required(t)| + |Optional(t)|),
                  Required(t) + found,
                  Select(paths, technologies, Optional(t), false), t.plan))
    else None
  }

  /** The score is a percentage, and only a match with nothing missing scores 100. */
  lemma ScoreMeansComplete(t: Template, paths: seq<string>, technologies: seq<string>)
    requires Outcome(t, paths, technologies).Some?
    ensures var r := Outcome(t, paths, technologies).value;
            && 0 <= r.score <= 100
            && (r.score == 100 <==> r.missing == [])
            && |r.matched| + |r.missing| == |Required(t)| + |Optional(t)|
  {
    var found := Select(paths, technologies, Optional(t), true);
    var missing := Select(paths, technologies, Optional(t), false);
    assert |found| + |missing| == |Optional(t)| by { SelectPartitions(paths, technologies, Optional(t)); }
    ScoreIsPercentage(|Required(t)| + |found|, |Required(t)| + |Optional(t)|);
    assert |missing| == 0 <==> missing == [];
  }

  lemma ScoreIsPercentage(present: nat, total: nat)
    requires present <= total
    ensures 0 <= Score(present, total) <= 100
    ensures Score(present, total) == 100 <==> present == total
  {
    if total > 0 {
      QuotientBounds(present, total);
    }
  }

  lemma QuotientBounds(part: nat, total: nat)
    requires part <= total && total > 0
    ensures 0 <= part * 100 / total <= 100
    ensures part * 100 / total == 100 <==> part == total
  {
    QuotientAtLeast(part * 100, total, 0);
    QuotientAtLeast(part * 100, total, 100);
    QuotientAtLeast(part * 100, total, 101);
  }

  lemma QuotientAtLeast(x: nat, d: nat, k: nat)
    requires d > 0
    ensures x / d >= k <==> x >= k * d
  {
    var q := x / d;
    assert x == q * d + x % d;
    if q >= k {
      assert (q - k) * d >= 0;
    } else {
      assert (k - 1 - q) * d >= 0;
    }
  }

  /** What a result reports of each component the template describes, in terms of the evidence alone. */
  ghost predicate Reports(r: Result, t: Template, paths: seq<string>, technologies: seq<string>) {
    && RequiredReported(r, t, technologies)
    && ImagesReported(r, t, paths)
    && TechnologiesReported(r, t, technologies)
    && |r.matched| + |r.missing|
       == |t.requiredImageGroups| + |t.requiredTechnologies| + |t.optionalImageGroups| + |t.optionalTechnologies|
    && ShareOf(r.score, |r.matched|, |r.matched| + |r.missing|)
  }

  ghost predicate RequiredReported(r: Result, t: Template, technologies: seq<string>) {
    && (forall g | g in t.requiredImageGroups :: RequiredRole(g) in r.matched)
    && (forall x | x in t.requiredTechnologies :: RequiredTechnology(x) in r.matched && Normal(x) in technologies)
  }

  ghost predicate ImagesReported(r: Result, t: Template, paths: seq<string>) {
    forall g | g in t.optionalImageGroups ::
      && (OptionalImage(g) in r.matched <==> exists p, q :: p in paths && q in g && ImageRef.Matches(p, q))
      && (OptionalImage(g) in r.missing <==> forall p, q | p in paths && q in g :: !ImageRef.Matches(p, q))
  }

  ghost predicate TechnologiesReported(r: Result, t: Template, technologies: seq<string>) {
    forall x | x in t.optionalTechnologies ::
      && (OptionalTechnology(x) in r.matched <==> Normal(x) in technologies)
      && (OptionalTechnology(x) in r.missing <==> Normal(x) !in technologies)
  }

  /** The percentage that `part` is of `whole`, rounded down. */
  predicate ShareOf(percentage: int, part: nat, whole: nat) {
    if whole == 0 then percentage == 100 else percentage * whole <= 100 * part < (percentage + 1) * whole
  }

  lemma {:induction false} SelectKeeps(paths: seq<string>, technologies: seq<string>, cs: seq<Component>, c: Component,
                                         wanted: bool)
    ensures c in Select(paths, technologies, cs, wanted) <==> c in cs && Evidenced(paths, technologies, c) == wanted
  {
    if cs != [] {
      var n := |cs| - 1;
      SelectKeeps(paths, technologies, cs[..n], c, wanted);
      assert cs == cs[..n] + [cs[n]];
    }
  }

  lemma OptionalReported(t: Template, paths: seq<string>, technologies: seq<string>, r: Result, c: Component)
    requires Outcome(t, paths, technologies) == Some(r) && c in Optional(t)
    ensures c in r.matched <==> Evidenced(paths, technologies, c)
    ensures c in r.missing <==> !Evidenced(paths, technologies, c)
  {
    SelectKeeps(paths, technologies, Optional(t), c, true);
    SelectKeeps(paths, technologies, Optional(t), c, false);
    assert c.OptionalImage? || c.OptionalTechnology?;
    assert forall d | d in Required(t) :: d.RequiredRole? || d.RequiredTechnology?;
  }

  lemma RequiredAreReported(t: Template, paths: seq<string>, technologies: seq<string>, r: Result)
    requires Outcome(t, paths, technologies) == Some(r)
    ensures RequiredReported(r, t, technologies)
  {
    forall g | g in t.requiredImageGroups ensures RequiredRole(g) in r.matched {
      var i :| 0 <= i < |t.requiredImageGroups| && t.requiredImageGroups[i] == g;
      assert Required(t)[i] == RequiredRole(g);
    }
    forall x | x in t.requiredTechnologies ensures RequiredTechnology(x) in r.matched {
      var i :| 0 <= i < |t.requiredTechnologies| && t.requiredTechnologies[i] == x;
      assert Required(t)[|t.requiredImageGroups| + i] == RequiredTechnology(x);
    }
  }

  lemma ImagesAreReported(t: Template, paths: seq<string>, technologies: seq<string>, r: Result)
    requires Outcome(t, paths, technologies) == Some(r)
    ensures ImagesReported(r, t, paths)
  {
    forall g | g in t.optionalImageGroups
      ensures OptionalImage(g) in r.matched <==> SomeImageMatches(paths, g)
      ensures OptionalImage(g) in r.missing <==> !SomeImageMatches(paths, g)
    {
      var i :| 0 <= i < |t.optionalImageGroups| && t.optionalImageGroups[i] == g;
      assert Optional(t)[i] == OptionalImage(g);
      OptionalReported(t, paths, technologies, r, OptionalImage(g));
    }
  }

  lemma TechnologiesAreReported(t: Template, paths: seq<string>, technologies: seq<string>, r: Result)
    requires Outcome(t, paths, technologies) == Some(r)
    ensures TechnologiesReported(r, t, technologies)
  {
    forall x | x in t.optionalTechnologies
      ensures OptionalTechnology(x) in r.matched <==> Normal(x) in technologies
      ensures OptionalTechnology(x) in r.missing <==> Normal(x) !in technologies
    {
      var i :| 0 <= i < |t.optionalTechnologies| && t.optionalTechnologies[i] == x;
      assert Optional(t)[|t.optionalImageGroups| + i] == OptionalTechnology(x);
      OptionalReported(t, paths, technologies, r, OptionalTechnology(x));
    }
  }

  lemma OutcomeReports(t: Template, paths: seq<string>, technologies: seq<string>, r: Result)
    requires Outcome(t, paths, technologies) == Some(r)
    ensures Reports(r, t, paths, technologies)
  {
    RequiredAreReported(t, paths, technologies, r);
    ImagesAreReported(t, paths, technologies, r);
    TechnologiesAreReported(t, paths, technologies, r);
    EachReportedOnce(t, paths, technologies, r);
  }

  lemma EachReportedOnce(t: Template, paths: seq<string>, technologies: seq<string>, r: Result)
    requires Outcome(t, paths, technologies) == Some(r)
    ensures |r.matched| + |r.missing|
            == |t.requiredImageGroups| + |t.requiredTechnologies| + |t.optionalImageGroups| + |t.optionalTechnologies|
    ensures ShareOf(r.score, |r.matched|, |r.matched| + |r.missing|)
  {
    SelectPartitions(paths, technologies, Optional(t));
    ScoreIsShare(|r.matched|, |r.matched| + |r.missing|);
  }

  lemma ScoreIsShare(present: nat, total: nat)
    requires present <= total
    ensures ShareOf(Score(present, total), present, total)
  {
  }

  method MatchTemplate(t: Template, paths: seq<string>, technologies: seq<string>) returns (result: Option<Result>)
    ensures result == Outcome(t, paths, technologies)
    ensures result.Some? <==> Eligible(t, paths, technologies)
    ensures result.Some? ==> Reports(result.value, t, paths, technologies)
  {
    var eligible, matched := MatchRequired(t, paths, technologies, Required(t));
    if !eligible {
      return None;
    }
    var missing, optional, found := [], 0, 0;
    matched, missing, optional, found := MatchOptional(t, paths, technologies, matched, Optional(t));
    var required := |t.requiredImageGroups| + |t.requiredTechnologies|;
    var score := Score(required + found, required + optional);
    result := Some(Result(t.id, t.name, t.version, t.category, score, matched, missing, t.plan));
    TallyIsOutcome(t, paths, technologies, result, found);
    OutcomeReports(t, paths, technologies, result.value);
  }

  /** `eligible` is exact; `all` is what an eligible template reports as matched at this point. */
  method MatchRequired(t: Template, paths: seq<string>, technologies: seq<string>, ghost all: seq<Component>)
    returns (eligible: bool, matched: seq<Component>)
    requires |all| == |t.requiredImageGroups| + |t.requiredTechnologies|
    requires forall i | 0 <= i < |t.requiredImageGroups| :: all[i] == RequiredRole(t.requiredImageGroups[i])
    requires forall k | |t.requiredImageGroups| <= k < |all| ::
               all[k] == RequiredTechnology(t.requiredTechnologies[k - |t.requiredImageGroups|])
    ensures eligible <==> Eligible(t, paths, technologies)
    ensures eligible ==> matched == all
  {
    matched := [];
    var imageOf, complete := RoleAssignment.Assign(paths, t.requiredImageGroups);
    for i := 0 to |t.requiredImageGroups|
      invariant complete ==> matched == all[..i]
    {
      // A role left empty is reported missing, but then no result is returned at all.
      if imageOf[i] >= 0 {
        matched := matched + [RequiredRole(t.requiredImageGroups[i])];
      }
    }
    if !complete {
      return false, matched;
    }
    var roles := |t.requiredImageGroups|;
    for i := 0 to |t.requiredTechnologies|
      invariant matched == all[..roles + i]
      invariant forall technology | technology in t.requiredTechnologies[..i] :: Normal(technology) in technologies
    {
      var found := Contains(technologies, t.requiredTechnologies[i]);
      if !found {
        assert t.requiredTechnologies[i] in t.requiredTechnologies;
        return false, matched;
      }
      assert all[roles + i] == RequiredTechnology(t.requiredTechnologies[i]);
      matched := matched + [RequiredTechnology(t.requiredTechnologies[i])];
    }
    eligible := true;
  }

  method MatchOptional(t: Template, paths: seq<string>, technologies: seq<string>, required: seq<Component>,
                       ghost all: seq<Component>)
    returns (matched: seq<Component>, missing: seq<Component>, optional: nat, found: nat)
    requires |all| == |t.optionalImageGroups| + |t.optionalTechnologies|
    requires forall i | 0 <= i < |t.optionalImageGroups| :: all[i] == OptionalImage(t.optionalImageGroups[i])
    requires forall k | |t.optionalImageGroups| <= k < |all| ::
               all[k] == OptionalTechnology(t.optionalTechnologies[k - |t.optionalImageGroups|])
    ensures optional == |all| && found <= |all|
    ensures Tallied(paths, technologies, required, all, |all|, matched, missing, found)
  {
    matched, missing, optional, found := MatchOptionalImages(t, paths, technologies, required, all);
    matched, missing, optional, found :=
      MatchOptionalTechnologies(t, paths, technologies, required, all, matched, missing, optional, found);
    TallyBounds(paths, technologies, required, all, matched, missing, found);
  }

  method MatchOptionalImages(t: Template, paths: seq<string>, technologies: seq<string>, required: seq<Component>,
                             ghost all: seq<Component>)
    returns (matched: seq<Component>, missing: seq<Component>, optional: nat, found: nat)
    requires |t.optionalImageGroups| <= |all|
    requires forall i | 0 <= i < |t.optionalImageGroups| :: all[i] == OptionalImage(t.optionalImageGroups[i])
    ensures optional == |t.optionalImageGroups|
    ensures Tallied(paths, technologies, required, all, optional, matched, missing, found)
  {
    matched, missing, optional, found := required, [], 0, 0;
    for i := 0 to |t.optionalImageGroups|
      invariant optional == i && Tallied(paths, technologies, required, all, i, matched, missing, found)
    {
      var component := OptionalImage(t.optionalImageGroups[i]);
      TallyOne(paths, technologies, required, all, i, component, matched, missing, found);
      var present := AnyImageMatches(paths, t.optionalImageGroups[i]);
      optional := optional + 1;
      if present {
        found := found + 1;
        matched := matched + [component];
      } else {
        missing := missing + [component];
      }
    }
  }

  method MatchOptionalTechnologies(t: Template, paths: seq<string>, technologies: seq<string>,
                                   ghost required: seq<Component>, ghost all: seq<Component>,
                                   matched0: seq<Component>, missing0: seq<Component>, optional0: nat, found0: nat)
    returns (matched: seq<Component>, missing: seq<Component>, optional: nat, found: nat)
    requires optional0 + |t.optionalTechnologies| == |all|
    requires forall i | 0 <= i < |t.optionalTechnologies| ::
               all[optional0 + i] == OptionalTechnology(t.optionalTechnologies[i])
    requires Tallied(paths, technologies, required, all, optional0, matched0, missing0, found0)
    ensures optional == |all|
    ensures Tallied(paths, technologies, required, all, optional, matched, missing, found)
  {
    matched, missing, optional, found := matched0, missing0, optional0, found0;
    for i := 0 to |t.optionalTechnologies|
      invariant optional == optional0 + i
      invariant Tallied(paths, technologies, required, all, optional, matched, missing, found)
    {
      var technology := t.optionalTechnologies[i];
      var component := OptionalTechnology(technology);
      assert all[optional0 + i] == component;
      TallyOne(paths, technologies, required, all, optional, component, matched, missing, found);
      var present := Contains(technologies, technology);
      assert present <==> Evidenced(paths, technologies, component);
      optional := optional + 1;
      if present {
        found := found + 1;
        matched := matched + [component];
      } else {
        missing := missing + [component];
      }
    }
  }

  lemma TallyBounds(paths: seq<string>, technologies: seq<string>, required: seq<Component>, all: seq<Component>,
                    matched: seq<Component>, missing: seq<Component>, found: int)
    requires Tallied(paths, technologies, required, all, |all|, matched, missing, found)
    ensures found <= |all|
  {
    assert all[..|all|] == all;
    SelectPartitions(paths, technologies, all);
  }

  lemma TallyIsOutcome(t: Template, paths: seq<string>, technologies: seq<string>, result: Option<Result>, found: nat)
    requires Eligible(t, paths, technologies) && found <= |Optional(t)| && result.Some?
    requires Tallied(paths, technologies, Required(t), Optional(t), |Optional(t)|,
                     result.value.matched, result.value.missing, found)
    requires result.value ==
             Result(t.id, t.name, t.version, t.category, Score(|Required(t)| + found, |Required(t)| + |Optional(t)|),
                    result.value.matched, result.value.missing, t.plan)
    ensures result == Outcome(t, paths, technologies)
  {
    var all := Optional(t);
    assert all[..|all|] == all;
  }

  /** The lists and the counter after the first `n` of the components `all`. */
  ghost predicate Tallied(paths: seq<string>, technologies: seq<string>, required: seq<Component>, all: seq<Component>,
                          n: nat, matched: seq<Component>, missing: seq<Component>, found: int)
  {
    && n <= |all|
    && matched == required + Select(paths, technologies, all[..n], true)
    && missing == Select(paths, technologies, all[..n], false)
    && found == |Select(paths, technologies, all[..n], true)|
  }

  lemma TallyOne(paths: seq<string>, technologies: seq<string>, required: seq<Component>, all: seq<Component>, n: nat,
                 c: Component, matched: seq<Component>, missing: seq<Component>, found: int)
    requires n < |all| && c == all[n] && Tallied(paths, technologies, required, all, n, matched, missing, found)
    ensures if Evidenced(paths, technologies, c)
            then Tallied(paths, technologies, required, all, n + 1, matched + [c], missing, found + 1)
            else Tallied(paths, technologies, required, all, n + 1, matched, missing + [c], found)
  {
    SelectSnoc(paths, technologies, all, n, true);
    SelectSnoc(paths, technologies, all, n, false);
    Reassociate(required, Select(paths, technologies, all[..n], true), [c]);
    assert Select(paths, technologies, all[..n], true) + [] == Select(paths, technologies, all[..n], true);
    assert Select(paths, technologies, all[..n], false) + [] == Select(paths, technologies, all[..n], false);
  }

  // ----- the ranking -----

  predicate Less(x: Result, y: Result) {
    if |x.matched| != |y.matched| then |x.matched| > |y.matched|
    else if x.score != y.score then x.score > y.score
    else StringLess(x.templateId, y.templateId)
  }

  predicate NotAfter(x: Result, y: Result) {
    !Less(y, x)
  }

  lemma RankingIsTotal()
    ensures TotalPreorder(NotAfter)
    ensures forall x, y :: NotAfter(x, y) && NotAfter(y, x) ==> x.templateId == y.templateId
  {
    StringOrderIsTotal();
    forall x, y, z | NotAfter(x, y) && NotAfter(y, z) ensures NotAfter(x, z) {
      assert StringLessOrEqual(x.templateId, y.templateId) && StringLessOrEqual(y.templateId, z.templateId)
             ==> StringLessOrEqual(x.templateId, z.templateId);
    }
    forall x, y ensures NotAfter(x, y) || NotAfter(y, x)
                ensures NotAfter(x, y) && NotAfter(y, x) ==> x.templateId == y.templateId
    {
      assert StringLessOrEqual(x.templateId, y.templateId) || StringLessOrEqual(y.templateId, x.templateId);
    }
  }

  ghost function OutcomeFor(paths: seq<string>, technologies: seq<string>): Template -> Option<Result> {
    (t: Template) => Outcome(t, paths, technologies)
  }

  ghost function AllMatches(templates: seq<Template>, evidence: Evidence): seq<Result> {
    var paths := Collect(ImageRef.NonEmptyPath, evidence.images);
    var technologies := Collect(NonEmptyNormal, evidence.technologies);
    Collect(OutcomeFor(paths, technologies), templates)
  }

  /** `out` lists exactly the eligible matches, best first. */
  ghost predicate IsRanking(out: seq<Result>, templates: seq<Template>, evidence: Evidence) {
    && multiset(out) == multiset(AllMatches(templates, evidence))
    && SortedBy(NotAfter, out)
  }

  ghost predicate Fits(t: Template, evidence: Evidence) {
    Eligible(t, Collect(ImageRef.NonEmptyPath, evidence.images), Collect(NonEmptyNormal, evidence.technologies))
  }

  /** The result is what the template reports on this evidence. */
  ghost predicate IsReport(r: Result, t: Template, evidence: Evidence) {
    && r.templateId == t.id && r.name == t.name && r.version == t.version && r.category == t.category
    && r.plan == t.plan
    && Reports(r, t, Collect(ImageRef.NonEmptyPath, evidence.images), Collect(NonEmptyNormal, evidence.technologies))
  }

  lemma RankedIsMatched(templates: seq<Template>, evidence: Evidence, results: seq<Result>, r: Result)
    requires IsRanking(results, templates, evidence)
    ensures r in results <==> r in AllMatches(templates, evidence)
  {
    assert r in multiset(results) <==> r in multiset(AllMatches(templates, evidence));
  }

  lemma FittingIsReported(templates: seq<Template>, evidence: Evidence, t: Template) returns (r: Result)
    requires t in templates && Fits(t, evidence)
    ensures r in AllMatches(templates, evidence) && IsReport(r, t, evidence)
  {
    var paths := Collect(ImageRef.NonEmptyPath, evidence.images);
    var technologies := Collect(NonEmptyNormal, evidence.technologies);
    r := Outcome(t, paths, technologies).value;
    assert OutcomeFor(paths, technologies)(t) == Some(r);
    CollectMembers(OutcomeFor(paths, technologies), templates, r);
    OutcomeReports(t, paths, technologies, r);
  }

  lemma ReportedFits(templates: seq<Template>, evidence: Evidence, r: Result) returns (t: Template)
    requires r in AllMatches(templates, evidence)
    ensures t in templates && Fits(t, evidence) && IsReport(r, t, evidence)
  {
    var paths := Collect(ImageRef.NonEmptyPath, evidence.images);
    var technologies := Collect(NonEmptyNormal, evidence.technologies);
    CollectMembers(OutcomeFor(paths, technologies), templates, r);
    t :| t in templates && OutcomeFor(paths, technologies)(t) == Some(r);
    OutcomeReports(t, paths, technologies, r);
  }

  lemma FittingAreReported(templates: seq<Template>, evidence: Evidence, results: seq<Result>)
    requires IsRanking(results, templates, evidence)
    ensures forall t | t in templates && Fits(t, evidence) :: exists r :: r in results && IsReport(r, t, evidence)
    ensures forall r | r in results :: exists t :: t in templates && Fits(t, evidence) && IsReport(r, t, evidence)
  {
    forall t | t in templates && Fits(t, evidence) ensures exists r :: r in results && IsReport(r, t, evidence) {
      var r := FittingIsReported(templates, evidence, t);
      RankedIsMatched(templates, evidence, results, r);
    }
    forall r | r in results ensures exists t :: t in templates && Fits(t, evidence) && IsReport(r, t, evidence) {
      RankedIsMatched(templates, evidence, results, r);
      var t := ReportedFits(templates, evidence, r);
    }
  }

  /** Exactly the templates that fit are reported. More matched components come first, then the higher
      score, then the smaller id. */
  method Match(templates: seq<Template>, evidence: Evidence) returns (results: seq<Result>)
    ensures IsRanking(results, templates, evidence)
    ensures forall t | t in templates && Fits(t, evidence) :: exists r :: r in results && IsReport(r, t, evidence)
    ensures forall r | r in results :: exists t :: t in templates && Fits(t, evidence) && IsReport(r, t, evidence)
    ensures forall i, j | 0 <= i < j < |results| ::
              && |results[i].matched| >= |results[j].matched|
              && (|results[i].matched| == |results[j].matched| ==> results[i].score >= results[j].score)
              && (|results[i].matched| == |results[j].matched| && results[i].score == results[j].score ==>
                    results[i].templateId == results[j].templateId
                    || StringLess(results[i].templateId, results[j].templateId))
  {
    var paths := ImageRef.RepositoryPaths(evidence.images);
    var technologies := Normalize(evidence.technologies);
    var matches := MatchAll(templates, paths, technologies);
    RankingIsTotal();
    results := SortSlice(matches, NotAfter);
    forall i, j | 0 <= i < j < |results| ensures NotAfter(results[i], results[j]) {
    }
    NotAfterMeans();
    FittingAreReported(templates, evidence, results);
  }

  lemma NotAfterMeans()
    ensures forall x, y | NotAfter(x, y) ::
              && |x.matched| >= |y.matched|
              && (|x.matched| == |y.matched| ==> x.score >= y.score)
              && (|x.matched| == |y.matched| && x.score == y.score ==>
                    x.templateId == y.templateId || StringLess(x.templateId, y.templateId))
  {
    forall x, y | NotAfter(x, y) && !StringLess(x.templateId, y.templateId)
      ensures |x.matched| == |y.matched| && x.score == y.score ==> x.templateId == y.templateId
    {
      StringLessTrichotomy(x.templateId, y.templateId);
    }
  }

  /** The loop over the catalog, before sorting. */
  method MatchAll(templates: seq<Template>, paths: seq<string>, technologies: seq<string>)
    returns (results: seq<Result>)
    ensures results == Collect(OutcomeFor(paths, technologies), templates)
  {
    results := [];
    for i := 0 to |templates|
      invariant results == Collect(OutcomeFor(paths, technologies), templates[..i])
    {
      CollectSnoc(OutcomeFor(paths, technologies), templates, i);
      var result := MatchTemplate(templates[i], paths, technologies);
      if result.Some? {
        results := results + [result.value];
      }
    }
    assert templates[..|templates|] == templates;
  }

  ghost predicate DistinctIds(templates: seq<Template>) {
    forall t, u | t in templates && u in templates && t.id == u.id :: t == u
  }

  /** Neither the order of the images, nor that of the technologies, nor that of the templates
      has any influence on the ranking. */
  lemma MatchIsOrderIndependent(templates: seq<Template>, evidence: Evidence, out: seq<Result>,
                                templates': seq<Template>, evidence': Evidence, out': seq<Result>)
    requires multiset(templates) == multiset(templates') && DistinctIds(templates)
    requires multiset(evidence.images) == multiset(evidence'.images)
    requires multiset(evidence.technologies) == multiset(evidence'.technologies)
    requires IsRanking(out, templates, evidence) && IsRanking(out', templates', evidence')
    ensures out == out'
  {
    var paths := Collect(ImageRef.NonEmptyPath, evidence.images);
    var paths' := Collect(ImageRef.NonEmptyPath, evidence'.images);
    CollectPermutes(ImageRef.NonEmptyPath, ImageRef.NonEmptyPath, evidence.images, evidence'.images);
    var technologies := Collect(NonEmptyNormal, evidence.technologies);
    var technologies' := Collect(NonEmptyNormal, evidence'.technologies);
    CollectPermutes(NonEmptyNormal, NonEmptyNormal, evidence.technologies, evidence'.technologies);
    forall t ensures Outcome(t, paths, technologies) == Outcome(t, paths', technologies') {
      OutcomeIgnoresOrder(t, paths, technologies, paths', technologies');
    }
    CollectPermutes(OutcomeFor(paths, technologies), OutcomeFor(paths', technologies'), templates, templates');
    RankingDistinguishes(templates, evidence, out);
    SortedUnique(NotAfter, out, out');
  }

  lemma RankingDistinguishes(templates: seq<Template>, evidence: Evidence, out: seq<Result>)
    requires DistinctIds(templates) && IsRanking(out, templates, evidence)
    ensures Distinguishes(NotAfter, out)
  {
    RankingIsTotal();
    forall x, y | x in out && y in out && NotAfter(x, y) && NotAfter(y, x) ensures x == y {
      var t := Origin(templates, evidence, out, x);
      var u := Origin(templates, evidence, out, y);
    }
  }

  lemma Origin(templates: seq<Template>, evidence: Evidence, out: seq<Result>, r: Result) returns (t: Template)
    requires IsRanking(out, templates, evidence) && r in out
    ensures t in templates && t.id == r.templateId
    ensures var paths := Collect(ImageRef.NonEmptyPath, evidence.images);
            Outcome(t, paths, Collect(NonEmptyNormal, evidence.technologies)) == Some(r)
  {
    var paths := Collect(ImageRef.NonEmptyPath, evidence.images);
    var technologies := Collect(NonEmptyNormal, evidence.technologies);
    var outcome := OutcomeFor(paths, technologies);
    assert r in multiset(out);
    assert r in AllMatches(templates, evidence);
    CollectMembers(outcome, templates, r);
    t :| t in templates && outcome(t) == Some(r);
  }

  lemma OutcomeIgnoresOrder(t: Template, paths: seq<string>, technologies: seq<string>,
                            paths': seq<string>, technologies': seq<string>)
    requires multiset(paths) == multiset(paths') && multiset(technologies) == multiset(technologies')
    ensures Outcome(t, paths, technologies) == Outcome(t, paths', technologies')
  {
    SameElements(paths, paths');
    SameElements(technologies, technologies');
    FillableIgnoresOrder(paths, paths', t.requiredImageGroups);
    FillableIgnoresOrder(paths', paths, t.requiredImageGroups);
    SelectIgnoresOrder(paths, technologies, paths', technologies', Optional(t), true);
    SelectIgnoresOrder(paths, technologies, paths', technologies', Optional(t), false);
  }

  lemma SameElements<T>(a: seq<T>, b: seq<T>)
    requires multiset(a) == multiset(b)
    ensures forall x :: x in a <==> x in b
  {
    assert forall x :: x in a <==> x in multiset(a);
    assert forall x :: x in b <==> x in multiset(b);
  }

  lemma {:induction false} SelectIgnoresOrder(paths: seq<string>, technologies: seq<string>, paths': seq<string>,
                                              technologies': seq<string>, cs: seq<Component>, wanted: bool)
    requires forall x :: x in paths <==> x in paths'
    requires forall x :: x in technologies <==> x in technologies'
    ensures Select(paths, technologies, cs, wanted) == Select(paths', technologies', cs, wanted)
  {
    if cs != [] {
      var n := |cs| - 1;
      SelectIgnoresOrder(paths, technologies, paths', technologies', cs[..n], wanted);
      assert Evidenced(paths, technologies, cs[n]) == Evidenced(paths', technologies', cs[n]);
    }
  }

  /** An assignment for one order of the images becomes one for the other by renumbering.
      Eligibility asks only whether one exists, and `Assign` answers exactly that. */
  lemma FillableIgnoresOrder(images: seq<string>, images': seq<string>, groups: seq<seq<string>>)
    requires multiset(images) == multiset(images')
    ensures RoleAssignment.Fillable(images, groups) ==> RoleAssignment.Fillable(images', groups)
  {
    if RoleAssignment.Fillable(images, groups) {
      var a :| RoleAssignment.Valid(images, groups, a) && RoleAssignment.Full(a);
      var p := Renumbering(images, images');
      assert forall r | 0 <= r < |a| :: RoleAssignment.Fits(images, groups, r, a[r]);
      var b := seq(|a|, r requires 0 <= r < |a| => p[a[r]]);
      assert RoleAssignment.Valid(images', groups, b) && RoleAssignment.Full(b);
    }
  }
}
