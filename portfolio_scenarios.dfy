/**
 Worked examples of the filter on a two-record catalog in which only the
 titles and the skills are filled in: a skill found by the text search, a tag,
 a query found nowhere, and a prefix of a skill that the text search finds but
 the tag selector does not. The two records are parameters fixed by their
 fields, so that the examples hold for any year and links.
 */
module PortfolioScenarios {
  import opened JsString
  import opened Portfolio

  predicate IsAgora(p: Project)
  {
    p.title == "SpaceAGORA" && p.tagline == "" && p.summary == "" && p.skills == ["Julia", "GNC"]
  }

  predicate IsPerci(p: Project)
  {
    p.title == "PERCI" && p.tagline == "" && p.summary == "" && p.skills == ["Mission Design"]
  }

  lemma AgoraText(p: Project)
    requires IsAgora(p)
    ensures SearchText(p) == "SpaceAGORA   Julia GNC"
  {
    JoinFour(p.title, p.tagline, p.summary, Join(p.skills, " "), " ");
    assert Join(p.skills, " ") == "Julia" + " " + "GNC";
  }

  lemma PerciText(p: Project)
    requires IsPerci(p)
    ensures SearchText(p) == "PERCI   Mission Design"
  {
    JoinFour(p.title, p.tagline, p.summary, Join(p.skills, " "), " ");
  }

  /** Filtering the two-record catalog, one record at a time. */
  lemma PairFiltered(a: Project, b: Project, query: string, filter: string)
    ensures FilteredProjects([a, b], query, filter)
         == (if Shown(a, query, filter) then [a] else [])
          + (if Shown(b, query, filter) then [b] else [])
  {
    assert [a, b] == [a] + ([b] + []);
    FilteredCons(a, [b] + [], query, filter);
    FilteredCons(b, [], query, filter);
  }

  /** A record whose search text lacks a query's first letter, in both cases, is not matched. */
  lemma LetterAbsent(p: Project, query: string, lower: char, upper: char)
    requires |query| > 0 && LowerChar(query[0]) == lower && UpperChar(lower) == upper
    requires lower !in SearchText(p) && upper !in SearchText(p)
    ensures !MatchesQuery(p, query)
  {
    MissingFirstLetterNotMatched(p, query);
  }

  lemma PerciLetters(text: string)
    requires text == "PERCI   Mission Design"
    ensures 'j' !in text && 'J' !in text && 'z' !in text && 'Z' !in text
  {
  }

  lemma AgoraLetters(text: string)
    requires text == "SpaceAGORA   Julia GNC"
    ensures 'z' !in text && 'Z' !in text
  {
  }

  /** PERCI's search text has no `j` and no `z`, in either case. */
  lemma NoJOrZInPerciText(p: Project)
    requires IsPerci(p)
    ensures 'j' !in SearchText(p) && 'J' !in SearchText(p)
    ensures 'z' !in SearchText(p) && 'Z' !in SearchText(p)
  {
    PerciText(p);
    PerciLetters(SearchText(p));
  }

  lemma NoZInAgoraText(p: Project)
    requires IsAgora(p)
    ensures 'z' !in SearchText(p) && 'Z' !in SearchText(p)
  {
    AgoraText(p);
    AgoraLetters(SearchText(p));
  }

  lemma NoJInPerci(p: Project)
    requires IsPerci(p)
    ensures !MatchesQuery(p, "julia") && !MatchesQuery(p, "Jul")
  {
    NoJOrZInPerciText(p);
    LetterAbsent(p, "julia", 'j', 'J');
    LetterAbsent(p, "Jul", 'j', 'J');
  }

  lemma NoZInPerci(p: Project)
    requires IsPerci(p)
    ensures !MatchesQuery(p, "zzz")
  {
    NoJOrZInPerciText(p);
    LetterAbsent(p, "zzz", 'z', 'Z');
  }

  lemma NoZInAgora(p: Project)
    requires IsAgora(p)
    ensures !MatchesQuery(p, "zzz")
  {
    NoZInAgoraText(p);
    LetterAbsent(p, "zzz", 'z', 'Z');
  }

  lemma JuliaFindsAgora(p: Project)
    requires IsAgora(p)
    ensures MatchesQuery(p, "julia")
  {
    FindsSkill(p, "Julia");
    assert ToLowerCase("julia") == ToLowerCase("Julia");
    MatchesQueryLowerCased(p, "julia", "Julia");
  }

  lemma JulFindsAgora(p: Project)
    requires IsAgora(p)
    ensures MatchesQuery(p, "Jul")
  {
    assert OccursAt("Julia", "Jul", 0);
    FindsWithinSkill(p, "Julia", "Jul", 0);
  }

  /** A query naming one record's skill, in lower case, shows that record only. */
  lemma JuliaQueryScenario(a: Project, b: Project)
    requires IsAgora(a) && IsPerci(b)
    ensures FilteredProjects([a, b], "julia", AllTag) == [a]
  {
    JuliaFindsAgora(a);
    NoJInPerci(b);
    PairFiltered(a, b, "julia", AllTag);
  }

  /** A tag carried by one record shows that record only. */
  lemma MissionDesignTagScenario(a: Project, b: Project)
    requires IsAgora(a) && IsPerci(b)
    ensures FilteredProjects([a, b], "", "Mission Design") == [b]
  {
    EmptyQueryMatches(b);
    PairFiltered(a, b, "", "Mission Design");
  }

  /** A query found in no record shows nothing. */
  lemma AbsentQueryScenario(a: Project, b: Project)
    requires IsAgora(a) && IsPerci(b)
    ensures FilteredProjects([a, b], "zzz", AllTag) == []
  {
    NoZInAgora(a);
    NoZInPerci(b);
    PairFiltered(a, b, "zzz", AllTag);
  }

  /** "Jul" is found by the text search, inside the skill "Julia", but is not a tag. */
  lemma PrefixQueryVersusTagScenario(a: Project, b: Project)
    requires IsAgora(a) && IsPerci(b)
    ensures MatchesQuery(a, "Jul") && !MatchesTag(a, "Jul")
    ensures FilteredProjects([a, b], "Jul", AllTag) == [a]
    ensures FilteredProjects([a, b], "", "Jul") == []
  {
    JulFindsAgora(a);
    NoJInPerci(b);
    PairFiltered(a, b, "Jul", AllTag);
    PairFiltered(a, b, "", "Jul");
  }
}
