# Portfolio project catalog, modelled in Dafny

The portfolio page (`src/Portfolio.jsx`) shows a catalog of project cards. It
also has two controls: a free-text search box (`query`) and a tag selector
(`filter`). Two computations in the `Portfolio` component hold its only logic.

- `allTags` gives the options of the tag selector. The skills of every project
  are added to a JavaScript `Set`, the distinct skills are sorted with the
  default `Array.prototype.sort()`, and the literal `"All"` goes in front.
- `filteredProjects` keeps, in catalog order, each project that passes two
  tests.
  - The text match: the title, tagline, summary and space-joined skills are
    joined with single spaces and lower-cased. The lower-cased query must occur
    in that text as a substring.
  - The tag match: `"All"` is selected, or the selected tag is exactly one of
    the project's skills.

How the model is laid out:

- `JsString` (`js_string.dfy`): the string built-ins the filter uses.
  - `toLowerCase` is modelled over ASCII. `ToUpperCase` is an ASCII helper
    that the page never calls; it only serves to state that the letter case of
    the query does not matter.
  - `includes` is a left-to-right scan. It is proved equal to "some index where
    the needle occurs".
  - `Array.prototype.join` is modelled as `Join`.
- `JsSort` (`js_sort.dfy`): the default string sort.
  - Strings are ordered lexicographically by code unit, and a proper prefix
    comes first.
  - The sort is an insertion sort, proved to return a sorted permutation of its
    input.
- `Portfolio` (`portfolio.dfy`): the project record and the two computations.
  - `AllTags` is a method: the nested `forEach` loops become nested `while`
    loops that grow a duplicate-free sequence, which stands for the `Set`.
  - `FilteredProjects` is a recursive function, with lemmas about it.
  - The React state `query` and `filter` are plain parameters. So is the
    catalog, which the component reads from a module constant.
- `PortfolioData` (`portfolio_data.dfy`): the four project records shipped with
  the page.
  - It proves the exact tag list for any catalog with their skills: `"All"`
    followed by seventeen skills in order.
  - It also proves two tag-filter examples on that catalog.
- `PortfolioScenarios` (`portfolio_scenarios.dfy`): worked examples of the
  filter on a two-record catalog.

## Model

| member | source | states |
|---|---|---|
| JsString.ToLowerCase | src/Portfolio.jsx:134 | the result has the input's length; each character is the input's character lower-cased (ASCII), and no upper-case letter remains |
| JsString.ToUpperCase | src/Portfolio.jsx:134-135 | pointwise ASCII upper-casing, keeping the length. The page never upper-cases anything; this function only serves to state, in `QueryCaseInsensitive`, that the letter case of the query does not matter |
| JsString.LowerCaseIdempotent | src/Portfolio.jsx:134-135 | lower-casing an already lower-cased string changes nothing |
| JsString.LowerOfUpper | src/Portfolio.jsx:134-135 | lower-casing an upper-cased string gives the same as lower-casing the original |
| JsString.LowerCaseConcat | src/Portfolio.jsx:132-134 | lower-casing the joined text is joining the lower-cased parts |
| JsString.Includes | src/Portfolio.jsx:135 | `hay.includes(needle)` holds exactly when the needle occurs in the haystack at some index |
| JsString.IncludesEmpty | src/Portfolio.jsx:135 | the empty string is found in every string |
| JsString.NotIncludesMissingFirst | src/Portfolio.jsx:135 | a needle whose first character is not in the haystack is not found |
| JsString.LowerCaseMissing | src/Portfolio.jsx:134 | a letter absent from a string in both its cases is absent from the lower-cased string |
| JsString.OccursLowered | src/Portfolio.jsx:134-135 | an occurrence of the needle stays at the same index once both strings are lower-cased |
| JsString.Join | src/Portfolio.jsx:132-133 | `parts.join(sep)`: the empty string for no parts, the part itself for one part, otherwise the first part, `sep` and the join of the rest; `JoinFour` and `JoinContainsPart` state what it produces |
| JsString.JoinFour | src/Portfolio.jsx:132-133 | joining four parts puts the separator once between each neighbouring pair |
| JsString.JoinContainsPart | src/Portfolio.jsx:132-133 | every part of a join occurs in the joined string |
| JsSort.Less | src/Portfolio.jsx:127 | the comparison of the default `sort()`: `a` comes before `b` exactly when `a` is a proper prefix of `b`, or when `a` has the smaller code unit at the first index where the two differ |
| JsSort.LessEq | src/Portfolio.jsx:127 | `a` does not come after `b` exactly when `b` is not less than `a`: the order is total |
| JsSort.LessIrreflexive | src/Portfolio.jsx:127 | no string sorts before itself |
| JsSort.LessTransitive | src/Portfolio.jsx:127 | the code-unit order is transitive |
| JsSort.LessTotal | src/Portfolio.jsx:127 | any two different strings are ordered one way or the other |
| JsSort.LessAsymmetric | src/Portfolio.jsx:127 | two strings are never each before the other |
| JsSort.Insert | src/Portfolio.jsx:127 | one step of the sort: inserting into a sorted list keeps it sorted and adds exactly the inserted string |
| JsSort.Sort | src/Portfolio.jsx:127 | `Array.from(s).sort()` returns a sorted permutation of its input |
| JsSort.SortedDistinctIsStrict | src/Portfolio.jsx:127 | a sorted list without repeats is strictly increasing |
| JsSort.PermutationKeepsDistinct | src/Portfolio.jsx:126-127 | sorting the contents of a set cannot introduce a repeat |
| JsSort.DistinctCardinality | src/Portfolio.jsx:126-127 | a list without repeats has as many entries as distinct elements |
| JsSort.StrictlySortedUnique | src/Portfolio.jsx:127 | two strictly increasing lists with the same elements are the same list |
| Portfolio.SkillsOf | src/Portfolio.jsx:126 | a string is in the union of skills exactly when some project lists it |
| Portfolio.CollectSkills | src/Portfolio.jsx:125-126 | the nested loop that adds each skill to the `Set` yields every project's skills, each once |
| Portfolio.SkillsOfCons | src/Portfolio.jsx:126 | the skills of a catalog are the first project's skills together with the skills of the rest |
| Portfolio.AllTags | src/Portfolio.jsx:124-128 | `"All"` first; one entry per distinct skill; the entries after `"All"` are strictly increasing and are exactly the skills of the catalog; `"All"` occurs once when no skill is named `"All"` |
| Portfolio.SortedSetFacts | src/Portfolio.jsx:126-127 | sorting the distinct skills gives a strictly increasing list of the same skills, as many as there are distinct skills |
| Portfolio.AllTagsDetermined | src/Portfolio.jsx:124-128 | the contract of `AllTags` fixes the tag list completely: two lists that meet it are equal |
| Portfolio.SearchText | src/Portfolio.jsx:132-133 | the searched text is the title, tagline, summary and space-joined skills, with one space between each neighbouring pair |
| Portfolio.MatchesQuery | src/Portfolio.jsx:132-135 | defined as: the lower-cased query is found by `Includes` in the lower-cased `SearchText`, so it occurs there at some index |
| Portfolio.MatchesTag | src/Portfolio.jsx:136 | defined as: `filter == "All"`, or `filter` is a whole element of `p.skills`; what that selects is stated by `EmptyQuerySelectsByTag`, `UnknownTagShowsNothing`, `KnownTagShowsSome` and `TagPrefixShowsNothing` |
| Portfolio.Shown | src/Portfolio.jsx:137 | defined as: `MatchesQuery` and `MatchesTag` both hold |
| Portfolio.FilteredProjects | src/Portfolio.jsx:130-139 | a project is shown exactly when it is in the catalog and passes both the text match and the tag match; no more projects than the catalog holds |
| Portfolio.FilteredIsSubsequence | src/Portfolio.jsx:131 | the projects shown are a subsequence of the catalog, in the catalog's order |
| Portfolio.FilteredKeepsEveryCopy | src/Portfolio.jsx:131 | nothing is deduplicated: a project that passes is shown as many times as the catalog holds it, and one that fails is not shown at all |
| Portfolio.FilteredCons | src/Portfolio.jsx:131 | the first project is shown first when it passes, and the rest of the catalog is filtered the same way |
| Portfolio.FilteredAppend | src/Portfolio.jsx:131 | filtering a catalog in two pieces is filtering each piece and concatenating the results |
| Portfolio.FilteredAgree | src/Portfolio.jsx:131-138 | two query/tag settings that agree on every project of the catalog show the same list |
| Portfolio.FilteredAllShown | src/Portfolio.jsx:131 | when every project passes, the whole catalog is shown unchanged |
| Portfolio.EmptyQueryMatches | src/Portfolio.jsx:132-135 | every project passes the text match for the empty query |
| Portfolio.EmptyQueryAllTagIsIdentity | src/Portfolio.jsx:130-139 | with the initial state (empty query, `"All"` selected) the page shows the whole catalog in order |
| Portfolio.EmptyQuerySelectsByTag | src/Portfolio.jsx:136-137 | with the empty query, a project is shown exactly when it passes the tag match |
| Portfolio.UnknownTagShowsNothing | src/Portfolio.jsx:136 | a selected tag other than `"All"` that names no project's skill shows no project, whatever the query |
| Portfolio.KnownTagShowsSome | src/Portfolio.jsx:136 | every tag taken from the catalog's skills shows at least one project under the empty query |
| Portfolio.QueryCaseInsensitive | src/Portfolio.jsx:134-135 | upper-casing or lower-casing the query (ASCII letters) leaves the shown list unchanged |
| Portfolio.FindsPartOfSearchText | src/Portfolio.jsx:132-135 | searching for the title, tagline, summary or joined skills, in either letter case, finds the project |
| Portfolio.FindsWithinSkill | src/Portfolio.jsx:132-135 | searching for any substring of one of the project's skills finds the project: text matching is by substring |
| Portfolio.FindsSkill | src/Portfolio.jsx:132-135 | searching for one of the project's skills by name finds the project |
| Portfolio.MissingFirstLetterNotMatched | src/Portfolio.jsx:134-135 | a query whose first letter appears in neither case in the search text does not match |
| Portfolio.MatchesQueryLowerCased | src/Portfolio.jsx:135 | two queries with the same lower-cased form match the same projects |
| Portfolio.FindsAcrossTitleAndTagline | src/Portfolio.jsx:132-133 | a query running across the space between the title and the tagline matches, because the text match runs over the joined text |
| PortfolioData.CatalogHasShippedSkills | src/Portfolio.jsx:41-84 | the four shipped project records carry the skill lists the examples below assume |
| PortfolioData.ShippedSkills | src/Portfolio.jsx:48-81 | the skills named across the shipped catalog are exactly its seventeen tags |
| PortfolioData.CatalogTagsSorted | src/Portfolio.jsx:127 | the seventeen skills, as listed, are in increasing code-unit order |
| PortfolioData.ShippedTags | src/Portfolio.jsx:124-128 | for the shipped skill lists the tag selector offers `"All"`, `"Aerodynamics"`, `"Controls"`, …, `"Wind Tunnel"`, in that order |
| PortfolioData.JuliaTagShowsFirst | src/Portfolio.jsx:136 | with the empty query, selecting `"Julia"` shows only SpaceAGORA, the first record |
| PortfolioData.TagPrefixShowsNothing | src/Portfolio.jsx:136 | selecting `"Jul"`, a prefix of a skill and not a skill, shows nothing, whatever the query: tags match exactly |
| PortfolioScenarios.PairFiltered | src/Portfolio.jsx:131 | a two-record catalog is filtered one record at a time, in order |
| PortfolioScenarios.JuliaQueryScenario | src/Portfolio.jsx:132-135 | the lower-case query `"julia"` finds the record with the skill `"Julia"` and not the other one |
| PortfolioScenarios.MissionDesignTagScenario | src/Portfolio.jsx:136 | the tag `"Mission Design"` shows only the record that carries it |
| PortfolioScenarios.AbsentQueryScenario | src/Portfolio.jsx:132-135 | a query found in no record shows nothing |
| PortfolioScenarios.PrefixQueryVersusTagScenario | src/Portfolio.jsx:132-137 | `"Jul"` as a query finds the `"Julia"` record, inside its skill; as a tag it shows nothing |

## Left out

- Rendering is not modelled (src/Portfolio.jsx:141-434). This covers the JSX, the styling classes, the header, footer and navigation components, and the framer-motion animations. None of it decides what is shown.
- React's `useState` and `useMemo` are not modelled, nor is re-rendering. `query`, `filter` and the catalog are parameters of each operation.
- The lucide-react icon on each link is dropped. A link keeps only its label, named `caption` because `label` is a Dafny keyword, and its `href`.
- `year` and `links` are carried in each record but play no part in the filter.
- Not modelled: the `writings` and `skills` display arrays, the contact links and the resume address. They are only turned into markup.
- `new Date().getFullYear()` is not modelled. It is a clock read used only in the footer.
- JsString.ToLowerCase: lower-cases ASCII letters only and leaves every other character alone. JavaScript applies full Unicode case mapping, which can change a string's length.
- JsSort.Less: compares characters one at a time. This is the code-unit order of `sort()` only on the Basic Multilingual Plane. Characters beyond it are two UTF-16 code units in JavaScript.
- JsSort.Sort: sorts a `seq` by insertion. The source builds a fresh array with `Array.from` and sorts it in place. Only the permutation and the order of the result are kept.
- Portfolio.CollectSkills: the `Set` is a duplicate-free sequence in first-insertion order. Only its contents are used afterwards, because the list is then sorted.
- Portfolio.AllTags: `"All"` is proved to occur once only when no project has a skill named `"All"`. The source does not guard against that collision.
