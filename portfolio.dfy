/**
 The project catalog of the portfolio page: the list of tags offered by the
 tag selector (`allTags`) and the projects shown for the current free-text
 query and selected tag (`filteredProjects`). The React state `query` and
 `filter` are plain parameters here.
 */
module Portfolio {
  import opened JsString
  import opened JsSort

  /** A link on a project card (its `label` is `caption` here); its icon is a presentation detail and is dropped. */
  datatype Link = Link(caption: string, href: string)

  /** One project record; `year` and `links` are carried but never inspected. */
  datatype Project = Project(
    title: string,
    year: string,
    tagline: string,
    summary: string,
    skills: seq<string>,
    links: seq<Link>)

  /** The tag that stands for "no tag filter". */
  const AllTag: string := "All"

  // ---------------------------------------------------------------- allTags

  /** Every skill named by some project: the union of their `skills`. */
  ghost function SkillsOf(projects: seq<Project>): (r: set<string>)
    ensures forall k :: k in r <==> exists p :: p in projects && k in p.skills
    decreases |projects|
  {
    if projects == [] then {}
    else
      var rest := projects[..|projects| - 1];
      var last := projects[|projects| - 1];
      assert projects == rest + [last];
      SkillsOf(rest) + Elems(last.skills)
  }

  /**
   The nested `forEach` over every project's skills, adding each skill to a
   JavaScript `Set`: the result holds every skill once, in the order first met.
   */
  method CollectSkills(projects: seq<Project>) returns (s: seq<string>)
    ensures Distinct(s)
    ensures Elems(s) == SkillsOf(projects)
  {
    s := [];
    var i := 0;
    while i < |projects|
      invariant 0 <= i <= |projects|
      invariant Distinct(s)
      invariant Elems(s) == SkillsOf(projects[..i])
    {
      var p := projects[i];
      var j := 0;
      while j < |p.skills|
        invariant 0 <= j <= |p.skills|
        invariant Distinct(s)
        invariant Elems(s) == SkillsOf(projects[..i]) + Elems(p.skills[..j])
      {
        var k := p.skills[j];
        ghost var before := s;
        if k !in s {
          s := s + [k];
        }
        ElemsAdd(before, k, s);
        ElemsSnoc(p.skills, j);
        j := j + 1;
      }
      assert p.skills[..j] == p.skills;
      SkillsOfSnoc(projects, i);
      i := i + 1;
    }
    assert projects[..i] == projects;
  }

  lemma ElemsAdd(before: seq<string>, k: string, after: seq<string>)
    requires Distinct(before)
    requires after == if k in before then before else before + [k]
    ensures Distinct(after)
    ensures Elems(after) == Elems(before) + {k}
  {
  }

  lemma ElemsSnoc(xs: seq<string>, j: int)
    requires 0 <= j < |xs|
    ensures Elems(xs[..j + 1]) == Elems(xs[..j]) + {xs[j]}
  {
    assert xs[..j + 1] == xs[..j] + [xs[j]];
  }

  lemma SkillsOfSnoc(projects: seq<Project>, i: int)
    requires 0 <= i < |projects|
    ensures SkillsOf(projects[..i + 1]) == SkillsOf(projects[..i]) + Elems(projects[i].skills)
  {
    assert projects[..i + 1][..i] == projects[..i];
  }

  lemma SkillsOfCons(p: Project, projects: seq<Project>)
    ensures SkillsOf([p] + projects) == Elems(p.skills) + SkillsOf(projects)
  {
  }

  /**
   The tag selector's options: "All", then every distinct skill of every
   project in sorted order.
   */
  method AllTags(projects: seq<Project>) returns (tags: seq<string>)
    ensures |tags| == 1 + |SkillsOf(projects)|
    ensures tags[0] == AllTag
    ensures StrictlySorted(tags[1..])
    ensures forall k :: k in tags[1..] <==> k in SkillsOf(projects)
    ensures AllTag !in SkillsOf(projects) ==> multiset(tags)[AllTag] == 1
  {
    var s := CollectSkills(projects);
    var sorted := Sort(s);
    SortedSetFacts(s, sorted);
    tags := [AllTag] + sorted;
    assert tags[1..] == sorted;
    assert multiset(tags) == multiset{AllTag} + multiset(sorted);
  }

  /** Sorting the distinct skills gives a strictly increasing list of the same skills. */
  lemma SortedSetFacts(s: seq<string>, sorted: seq<string>)
    requires Distinct(s) && Sorted(sorted) && multiset(sorted) == multiset(s)
    ensures StrictlySorted(sorted)
    ensures Elems(sorted) == Elems(s)
    ensures |sorted| == |Elems(s)|
  {
    PermutationKeepsDistinct(s, sorted);
    SortedDistinctIsStrict(sorted);
    DistinctCardinality(sorted);
    forall k ensures k in sorted <==> k in s {
      assert k in sorted <==> k in multiset(sorted);
      assert k in s <==> k in multiset(s);
    }
  }

  /**
   The requirements on `AllTags` leave it no choice: any two tag lists that
   meet them are the same list.
   */
  lemma AllTagsDetermined(projects: seq<Project>, t1: seq<string>, t2: seq<string>)
    requires |t1| >= 1 && t1[0] == AllTag && StrictlySorted(t1[1..])
    requires forall k :: k in t1[1..] <==> k in SkillsOf(projects)
    requires |t2| >= 1 && t2[0] == AllTag && StrictlySorted(t2[1..])
    requires forall k :: k in t2[1..] <==> k in SkillsOf(projects)
    ensures t1 == t2
  {
    assert Elems(t1[1..]) == Elems(t2[1..]);
    StrictlySortedUnique(t1[1..], t2[1..]);
    assert t1 == [t1[0]] + t1[1..] && t2 == [t2[0]] + t2[1..];
  }

  // ------------------------------------------------------- filteredProjects

  /** The searchable text of a card: title, tagline, summary and skills, space-separated. */
  function SearchText(p: Project): (r: string)
    ensures r == p.title + " " + p.tagline + " " + p.summary + " " + Join(p.skills, " ")
  {
    JoinFour(p.title, p.tagline, p.summary, Join(p.skills, " "), " ");
    Join([p.title, p.tagline, p.summary, Join(p.skills, " ")], " ")
  }

  /** The text match: the lower-cased query is a substring of the lower-cased search text. */
  predicate MatchesQuery(p: Project, query: string)
  {
    Includes(ToLowerCase(SearchText(p)), ToLowerCase(query))
  }

  /** The tag match: no tag filter, or the tag is exactly one of the project's skills. */
  predicate MatchesTag(p: Project, filter: string)
  {
    filter == AllTag || filter in p.skills
  }

  /** The filter's predicate: a project is kept when it passes both the text and the tag match. */
  predicate Shown(p: Project, query: string, filter: string)
  {
    MatchesQuery(p, query) && MatchesTag(p, filter)
  }

  /** The projects shown on the page, in catalog order. */
  function FilteredProjects(projects: seq<Project>, query: string, filter: string): (r: seq<Project>)
    ensures |r| <= |projects|
    ensures forall p :: p in r <==> p in projects && Shown(p, query, filter)
    decreases |projects|
  {
    if projects == [] then []
    else
      var rest := FilteredProjects(projects[1..], query, filter);
      assert projects == [projects[0]] + projects[1..];
      if Shown(projects[0], query, filter) then [projects[0]] + rest else rest
  }

  /** `xs` is `ys` with some elements taken out and the rest left in order. */
  ghost predicate IsSubsequence(xs: seq<Project>, ys: seq<Project>)
    decreases |ys|
  {
    if xs == [] then true
    else if ys == [] then false
    else (xs[0] == ys[0] && IsSubsequence(xs[1..], ys[1..])) || IsSubsequence(xs, ys[1..])
  }

  /** The page never reorders projects: what it shows is a subsequence of the catalog. */
  lemma {:induction false} FilteredIsSubsequence(projects: seq<Project>, query: string, filter: string)
    ensures IsSubsequence(FilteredProjects(projects, query, filter), projects)
    decreases |projects|
  {
    if projects != [] {
      FilteredIsSubsequence(projects[1..], query, filter);
    }
  }

  /** Nothing is deduplicated: a project that passes is shown as many times as the catalog holds it. */
  lemma {:induction false} FilteredKeepsEveryCopy(projects: seq<Project>, query: string, filter: string)
    ensures forall p :: multiset(FilteredProjects(projects, query, filter))[p]
                     == if Shown(p, query, filter) then multiset(projects)[p] else 0
    decreases |projects|
  {
    if projects != [] {
      var first, tail := projects[0], projects[1..];
      FilteredKeepsEveryCopy(tail, query, filter);
      assert projects == [first] + tail;
      FilteredCons(first, tail, query, filter);
    }
  }

  /** The first project is shown first when it passes, and the rest is filtered alike. */
  lemma FilteredCons(p: Project, projects: seq<Project>, query: string, filter: string)
    ensures FilteredProjects([p] + projects, query, filter)
         == (if Shown(p, query, filter) then [p] else []) + FilteredProjects(projects, query, filter)
  {
    assert ([p] + projects)[0] == p && ([p] + projects)[1..] == projects;
  }

  /** Filtering a catalog in two pieces is filtering each piece and joining the results. */
  lemma {:induction false} FilteredAppend(a: seq<Project>, b: seq<Project>, query: string, filter: string)
    ensures FilteredProjects(a + b, query, filter)
         == FilteredProjects(a, query, filter) + FilteredProjects(b, query, filter)
    decreases |a|
  {
    if a == [] {
      assert a + b == b;
    } else {
      var ab := a + b;
      assert ab != [] && ab[0] == a[0] && ab[1..] == a[1..] + b;
      FilteredAppend(a[1..], b, query, filter);
      var rest := FilteredProjects(a[1..], query, filter);
      var fb := FilteredProjects(b, query, filter);
      if Shown(a[0], query, filter) {
        calc {
          FilteredProjects(ab, query, filter);
          [a[0]] + FilteredProjects(a[1..] + b, query, filter);
          [a[0]] + (rest + fb);
          ([a[0]] + rest) + fb;
          FilteredProjects(a, query, filter) + fb;
        }
      } else {
        calc {
          FilteredProjects(ab, query, filter);
          FilteredProjects(a[1..] + b, query, filter);
          rest + fb;
          FilteredProjects(a, query, filter) + fb;
        }
      }
    }
  }

  /** Two queries that agree on every project of the catalog show the same projects. */
  lemma {:induction false} FilteredAgree(projects: seq<Project>, q1: string, f1: string, q2: string, f2: string)
    requires forall p :: p in projects ==> (Shown(p, q1, f1) <==> Shown(p, q2, f2))
    ensures FilteredProjects(projects, q1, f1) == FilteredProjects(projects, q2, f2)
    decreases |projects|
  {
    if projects != [] {
      assert forall p :: p in projects[1..] ==> p in projects;
      FilteredAgree(projects[1..], q1, f1, q2, f2);
    }
  }

  /** When every project passes, the whole catalog is shown unchanged. */
  lemma {:induction false} FilteredAllShown(projects: seq<Project>, query: string, filter: string)
    requires forall p :: p in projects ==> Shown(p, query, filter)
    ensures FilteredProjects(projects, query, filter) == projects
    decreases |projects|
  {
    if projects != [] {
      assert forall p :: p in projects[1..] ==> p in projects;
      FilteredAllShown(projects[1..], query, filter);
    }
  }

  /** Every project matches the empty query. */
  lemma EmptyQueryMatches(p: Project)
    ensures MatchesQuery(p, "")
  {
    IncludesEmpty(ToLowerCase(SearchText(p)));
  }

  /** With the empty query and "All" selected, the page shows the whole catalog. */
  lemma EmptyQueryAllTagIsIdentity(projects: seq<Project>)
    ensures FilteredProjects(projects, "", AllTag) == projects
  {
    forall p | p in projects ensures Shown(p, "", AllTag) {
      EmptyQueryMatches(p);
    }
    FilteredAllShown(projects, "", AllTag);
  }

  /** With the empty query, exactly the projects carrying the selected tag are shown. */
  lemma EmptyQuerySelectsByTag(projects: seq<Project>, filter: string)
    ensures forall p :: p in FilteredProjects(projects, "", filter)
                    <==> p in projects && MatchesTag(p, filter)
  {
    forall p | p in projects ensures MatchesQuery(p, "") {
      EmptyQueryMatches(p);
    }
  }

  /** A selected tag that is no project's skill (and is not "All") shows nothing. */
  lemma UnknownTagShowsNothing(projects: seq<Project>, query: string, filter: string)
    requires filter != AllTag && filter !in SkillsOf(projects)
    ensures FilteredProjects(projects, query, filter) == []
  {
  }

  /** A tag offered by the selector shows at least one project under the empty query. */
  lemma KnownTagShowsSome(projects: seq<Project>, filter: string)
    requires filter in SkillsOf(projects)
    ensures FilteredProjects(projects, "", filter) != []
  {
    var p :| p in projects && filter in p.skills;
    EmptyQueryMatches(p);
    assert p in FilteredProjects(projects, "", filter);
  }

  /** Upper-casing or lower-casing the query changes nothing on the page (ASCII letters). */
  lemma QueryCaseInsensitive(projects: seq<Project>, query: string, filter: string)
    ensures FilteredProjects(projects, ToUpperCase(query), filter) == FilteredProjects(projects, query, filter)
    ensures FilteredProjects(projects, ToLowerCase(query), filter) == FilteredProjects(projects, query, filter)
  {
    LowerOfUpper(query);
    LowerCaseIdempotent(query);
    FilteredAgree(projects, ToUpperCase(query), filter, query, filter);
    FilteredAgree(projects, ToLowerCase(query), filter, query, filter);
  }

  /** Searching for a part of the search text, in any letter case, finds the project. */
  lemma FindsPartOfSearchText(p: Project, part: string, k: int)
    requires 0 <= k < 4 && part == [p.title, p.tagline, p.summary, Join(p.skills, " ")][k]
    ensures MatchesQuery(p, part)
    ensures MatchesQuery(p, ToUpperCase(part))
  {
    var parts := [p.title, p.tagline, p.summary, Join(p.skills, " ")];
    JoinContainsPart(parts, " ", k);
    var i :| OccursAt(SearchText(p), part, i);
    OccursLowered(SearchText(p), part, i);
    LowerOfUpper(part);
  }

  /** Searching for any piece of one of the project's skills finds the project. */
  lemma FindsWithinSkill(p: Project, skill: string, needle: string, i: int)
    requires skill in p.skills && OccursAt(skill, needle, i)
    ensures MatchesQuery(p, needle)
  {
    var j :| 0 <= j < |p.skills| && p.skills[j] == skill;
    var skillText := Join(p.skills, " ");
    JoinContainsPart(p.skills, " ", j);
    var m :| OccursAt(skillText, skill, m);
    assert OccursAt(skillText, needle, m + i) by {
      assert skillText[m + i..m + i + |needle|] == skillText[m..m + |skill|][i..i + |needle|];
    }
    var pre := p.title + " " + p.tagline + " " + p.summary + " ";
    JoinFour(p.title, p.tagline, p.summary, skillText, " ");
    assert SearchText(p) == pre + skillText + "";
    OccursInConcat(pre, skillText, "", needle, m + i);
    OccursLowered(SearchText(p), needle, |pre| + m + i);
  }

  /** Searching for one of the project's skills by name finds the project. */
  lemma FindsSkill(p: Project, skill: string)
    requires skill in p.skills
    ensures MatchesQuery(p, skill)
  {
    assert OccursAt(skill, skill, 0);
    FindsWithinSkill(p, skill, skill, 0);
  }

  /** A query whose first letter, in either case, is nowhere in the search text finds nothing. */
  lemma MissingFirstLetterNotMatched(p: Project, query: string)
    requires |query| > 0
    requires LowerChar(query[0]) !in SearchText(p) && UpperChar(LowerChar(query[0])) !in SearchText(p)
    ensures !MatchesQuery(p, query)
  {
    LowerCaseMissing(SearchText(p), query[0]);
    NotIncludesMissingFirst(ToLowerCase(SearchText(p)), ToLowerCase(query));
  }

  /** Only the lower-cased query matters to the text match. */
  lemma MatchesQueryLowerCased(p: Project, q1: string, q2: string)
    requires ToLowerCase(q1) == ToLowerCase(q2)
    ensures MatchesQuery(p, q1) == MatchesQuery(p, q2)
  {
  }

  /**
   The text match runs over the joined text, so a query may run across the
   space between the title and the tagline.
   */
  lemma FindsAcrossTitleAndTagline(p: Project)
    ensures MatchesQuery(p, p.title + " " + p.tagline)
  {
    var needle := p.title + " " + p.tagline;
    var rest := " " + p.summary + " " + Join(p.skills, " ");
    JoinFour(p.title, p.tagline, p.summary, Join(p.skills, " "), " ");
    assert SearchText(p) == "" + needle + rest;
    assert OccursAt(needle, needle, 0);
    OccursInConcat("", needle, rest, needle, 0);
    OccursLowered(SearchText(p), needle, 0);
  }
}
