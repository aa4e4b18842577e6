/**
 The catalog the page ships with (four project records), and worked examples
 of the tag list and the filter on it.
 */
module PortfolioData {
  import opened JsString
  import opened JsSort
  import opened Portfolio

  const SpaceAgora := Project(
    "SpaceAGORA",
    "2025",
    "Space-FALCON Lab's Julia-based simulator for aerobraking mission design",
    "Contributed to Space-AGORA, an open-source Julia simulator for aerobraking missions. Focused on debugging routines, improving algorithm efficiency, and running large simulation sets across varied spacecraft and mission parameters to test accuracy and performance.",
    ["Julia", "GNC", "Trajectory Design", "Monte Carlo", "Simulation"],
    [Link("GitHub", "#"), Link("Project Notes", "#")])

  const Perci := Project(
    "PERCI: Uranus Moon Penetrator Mission Concept",
    "2025",
    "Secondary payload concept for NASA\U{2019}s Uranus mission",
    "Proposed a penetrator probe to enable in-situ science on Uranian moons. Collaborated with NASA JPL mentors on mission concept and requirements, built the Science Traceability Matrix linking Decadal Survey goals to payload capabilities, performed instrument trade studies, and supported subsystem design for payload, structures, trajectory, and thermal.",
    ["Mission Design", "Trade Studies", "Science Traceability Matrix", "Subsystem Design"],
    [Link("Report", "/files/PERCIreport.pdf")])

  const Simulator := Project(
    "6\U{2011}DOF Spacecraft Simulator (MATLAB)",
    "2025",
    "Rigid\U{2011}body dynamics with visualization and tuning presets",
    "ODE\U{2011}based simulator supporting parameter sweeps, trail plots, and Simulink integration for control testing.",
    ["MATLAB", "Simulink", "Controls", "Visualization"],
    [Link("GitHub", "#"), Link("Demo", "#")])

  const Radiator := Project(
    "Meredith Effect Radiator Concept",
    "2025",
    "Intake\U{2011}embedded radiator for aerodynamic/thermal synergy",
    "Wind\U{2011}tunnel supported design exploration coupling pressure recovery, heat addition, and potential thrust augmentation.",
    ["Aerodynamics", "Thermal", "Wind Tunnel", "Data Analysis"],
    [Link("Report (AIAA style)", "#")])

  const Catalog: seq<Project> := [SpaceAgora, Perci, Simulator, Radiator]

  /** The skills of the shipped catalog in sorted order. */
  const CatalogSkillTags: seq<string> := [
    "Aerodynamics", "Controls", "Data Analysis", "GNC", "Julia", "MATLAB",
    "Mission Design", "Monte Carlo", "Science Traceability Matrix", "Simulation",
    "Simulink", "Subsystem Design", "Thermal", "Trade Studies", "Trajectory Design",
    "Visualization", "Wind Tunnel"]

  /** The tag selector's options for the shipped catalog, as the page lists them. */
  const CatalogTags: seq<string> := [AllTag] + CatalogSkillTags

  /** The skill lists of the shipped catalog, record by record; the other fields are free. */
  predicate HasShippedSkills(projects: seq<Project>)
  {
    |projects| == 4
    && projects[0].skills == ["Julia", "GNC", "Trajectory Design", "Monte Carlo", "Simulation"]
    && projects[1].skills == ["Mission Design", "Trade Studies", "Science Traceability Matrix", "Subsystem Design"]
    && projects[2].skills == ["MATLAB", "Simulink", "Controls", "Visualization"]
    && projects[3].skills == ["Aerodynamics", "Thermal", "Wind Tunnel", "Data Analysis"]
  }

  lemma CatalogHasShippedSkills()
    ensures HasShippedSkills(Catalog)
  {
  }

  lemma SkillsOfFour(projects: seq<Project>)
    requires |projects| == 4
    ensures SkillsOf(projects)
         == Elems(projects[0].skills) + Elems(projects[1].skills)
          + Elems(projects[2].skills) + Elems(projects[3].skills)
  {
    assert SkillsOf(projects[..0]) == {} by { assert projects[..0] == []; }
    SkillsOfSnoc(projects, 0);
    SkillsOfSnoc(projects, 1);
    SkillsOfSnoc(projects, 2);
    SkillsOfSnoc(projects, 3);
    assert projects[..4] == projects;
  }

  lemma SkillSet4(s: seq<string>)
    requires |s| == 4
    ensures Elems(s) == {s[0], s[1], s[2], s[3]}
  {
  }

  lemma SkillSet5(s: seq<string>)
    requires |s| == 5
    ensures Elems(s) == {s[0], s[1], s[2], s[3], s[4]}
  {
  }

  lemma CatalogTagSet(s: seq<string>)
    requires s == CatalogSkillTags
    ensures Elems(s)
         == {"Julia", "GNC", "Trajectory Design", "Monte Carlo", "Simulation"}
          + {"Mission Design", "Trade Studies", "Science Traceability Matrix", "Subsystem Design"}
          + {"MATLAB", "Simulink", "Controls", "Visualization"}
          + {"Aerodynamics", "Thermal", "Wind Tunnel", "Data Analysis"}
  {
  }

  /** The skills named across the shipped catalog are exactly the tags after "All". */
  lemma ShippedSkills(projects: seq<Project>)
    requires HasShippedSkills(projects)
    ensures SkillsOf(projects) == Elems(CatalogSkillTags)
  {
    SkillsOfFour(projects);
    SkillSet5(projects[0].skills);
    SkillSet4(projects[1].skills);
    SkillSet4(projects[2].skills);
    SkillSet4(projects[3].skills);
    CatalogTagSet(CatalogSkillTags);
  }

  /** From index `i` on, each element is less than the next one. */
  predicate ChainFrom(s: seq<string>, i: nat)
    decreases |s| - i
  {
    i + 1 >= |s| || (Less(s[i], s[i + 1]) && ChainFrom(s, i + 1))
  }

  /** A chain is strictly increasing throughout. */
  lemma {:induction false} ChainIsStrict(s: seq<string>, i: nat)
    requires ChainFrom(s, i)
    ensures forall j, k :: i <= j < k < |s| ==> Less(s[j], s[k])
    decreases |s| - i
  {
    if i + 1 < |s| {
      ChainIsStrict(s, i + 1);
      forall k | i + 1 < k < |s| ensures Less(s[i], s[k]) {
        LessTransitive(s[i], s[i + 1], s[k]);
      }
    }
  }

  lemma AdjacentTags0()
    ensures Less("Aerodynamics", "Controls")
    ensures Less("Controls", "Data Analysis")
    ensures Less("Data Analysis", "GNC")
    ensures Less("GNC", "Julia")
  {
  }

  lemma AdjacentTags4()
    ensures Less("Julia", "MATLAB")
    ensures Less("MATLAB", "Mission Design")
    ensures Less("Mission Design", "Monte Carlo")
    ensures Less("Monte Carlo", "Science Traceability Matrix")
  {
  }

  lemma AdjacentTags8()
    ensures Less("Science Traceability Matrix", "Simulation")
    ensures Less("Simulation", "Simulink")
    ensures Less("Simulink", "Subsystem Design")
    ensures Less("Subsystem Design", "Thermal")
  {
  }

  lemma AdjacentTags12()
    ensures Less("Thermal", "Trade Studies")
    ensures Less("Trade Studies", "Trajectory Design")
    ensures Less("Trajectory Design", "Visualization")
    ensures Less("Visualization", "Wind Tunnel")
  {
  }

  /** Each tag is less than the next one. */
  lemma CatalogChain(s: seq<string>)
    requires s == CatalogSkillTags
    ensures ChainFrom(s, 0)
  {
    AdjacentTags0();
    AdjacentTags4();
    AdjacentTags8();
    AdjacentTags12();
    assert ChainFrom(s, 16);
    assert ChainFrom(s, 15);
    assert ChainFrom(s, 14);
    assert ChainFrom(s, 13);
    assert ChainFrom(s, 12);
    assert ChainFrom(s, 11);
    assert ChainFrom(s, 10);
    assert ChainFrom(s, 9);
    assert ChainFrom(s, 8);
    assert ChainFrom(s, 7);
    assert ChainFrom(s, 6);
    assert ChainFrom(s, 5);
    assert ChainFrom(s, 4);
    assert ChainFrom(s, 3);
    assert ChainFrom(s, 2);
    assert ChainFrom(s, 1);
    assert ChainFrom(s, 0);
  }

  /** The seventeen skill tags are listed in increasing order. */
  lemma CatalogTagsSorted()
    ensures StrictlySorted(CatalogTags[1..])
  {
    CatalogChain(CatalogSkillTags);
    ChainIsStrict(CatalogSkillTags, 0);
    assert CatalogTags[1..] == CatalogSkillTags;
  }

  /** The tag list of a catalog with the shipped skills: "All" and the seventeen skills in order. */
  method ShippedTags(projects: seq<Project>) returns (tags: seq<string>)
    requires HasShippedSkills(projects)
    ensures tags == CatalogTags
  {
    tags := AllTags(projects);
    ShippedSkills(projects);
    CatalogTagsSorted();
    assert CatalogTags[1..] == CatalogSkillTags;
    AllTagsDetermined(projects, tags, CatalogTags);
  }

  lemma SkillsOfThree(a: Project, b: Project, c: Project)
    ensures SkillsOf([a, b, c]) == Elems(a.skills) + Elems(b.skills) + Elems(c.skills)
  {
  }

  lemma NoJuliaInPerci(s: seq<string>)
    requires s == ["Mission Design", "Trade Studies", "Science Traceability Matrix", "Subsystem Design"]
    ensures "Julia" !in s
  {
  }

  lemma NoJuliaInSimulator(s: seq<string>)
    requires s == ["MATLAB", "Simulink", "Controls", "Visualization"]
    ensures "Julia" !in s
  {
  }

  lemma NoJuliaInRadiator(s: seq<string>)
    requires s == ["Aerodynamics", "Thermal", "Wind Tunnel", "Data Analysis"]
    ensures "Julia" !in s
  {
  }

  lemma JuliaOnlyInFirst(projects: seq<Project>)
    requires HasShippedSkills(projects)
    ensures "Julia" !in SkillsOf(projects[1..])
  {
    NoJuliaInPerci(projects[1].skills);
    NoJuliaInSimulator(projects[2].skills);
    NoJuliaInRadiator(projects[3].skills);
    assert projects[1..] == [projects[1], projects[2], projects[3]];
    SkillsOfThree(projects[1], projects[2], projects[3]);
  }

  /** Selecting "Julia" with an empty query shows only the first record, SpaceAGORA. */
  lemma JuliaTagShowsFirst(projects: seq<Project>)
    requires HasShippedSkills(projects)
    ensures FilteredProjects(projects, "", "Julia") == [projects[0]]
  {
    var rest := projects[1..];
    assert projects == [projects[0]] + rest;
    JuliaOnlyInFirst(projects);
    UnknownTagShowsNothing(rest, "", "Julia");
    EmptyQueryMatches(projects[0]);
    FilteredCons(projects[0], rest, "", "Julia");
  }

  lemma JulNotATag(s: seq<string>)
    requires s == CatalogSkillTags
    ensures "Jul" !in Elems(s)
  {
    assert "Jul" !in s;
  }

  /** Tags match exactly: "Jul" is a prefix of a skill but selects nothing, whatever the query. */
  lemma TagPrefixShowsNothing(projects: seq<Project>, query: string)
    requires HasShippedSkills(projects)
    ensures FilteredProjects(projects, query, "Jul") == []
  {
    ShippedSkills(projects);
    JulNotATag(CatalogSkillTags);
    UnknownTagShowsNothing(projects, query, "Jul");
  }
}
