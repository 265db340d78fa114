/**
 * The category filter of the portfolio grid: the selected filter, "archviz" at first, decides
 * which projects of the catalog are shown, by a case-insensitive substring test on the category.
 */
module PortfolioGrid {
  import opened Text
  import Seqs
  import opened Wrappers

  /** A catalog entry as the front end reads it. */
  datatype Project = Project(
    id: string,
    title: string,
    category: string,
    image: string,
    images: Option<seq<string>>,
    description: string,
    date: string,
    location: string)

  datatype FilterType = All | Archviz | Technical

  const InitialFilter: FilterType := Archviz

  predicate IsArchviz(p: Project) {
    Contains(ToLower(p.category), "arch")
  }

  predicate IsTechnical(p: Project) {
    var c := ToLower(p.category);
    Contains(c, "tech") || Contains(c, "procedural") || Contains(c, "geometry")
  }

  /** `filteredProjects`: every project for "all", otherwise those of the chosen kind. */
  function FilteredProjects(projects: seq<Project>, filter: FilterType): seq<Project> {
    match filter
    case All => projects
    case Archviz => Seqs.Filter(IsArchviz, projects)
    case Technical => Seqs.Filter(IsTechnical, projects)
  }

  /** The lower-cased category holds `word` somewhere. */
  ghost predicate Mentions(p: Project, word: string) {
    exists i :: OccursAt(ToLower(p.category), word, i)
  }

  /** The selected filter, the one piece of state of the grid. */
  class Grid {
    var filter: FilterType

    constructor ()
      ensures filter == InitialFilter
    {
      filter := Archviz;
    }

    /** A click on one of the filter buttons. */
    method SetFilter(f: FilterType)
      modifies this
      ensures filter == f
    {
      filter := f;
    }

    function Shown(projects: seq<Project>): seq<Project>
      reads this
    {
      FilteredProjects(projects, filter)
    }
  }

  lemma AllUnchanged(projects: seq<Project>)
    ensures FilteredProjects(projects, All) == projects
  {
  }

  /** "archviz" keeps exactly the projects whose lower-cased category contains "arch". */
  lemma ArchvizExactly(projects: seq<Project>)
    ensures forall p :: p in FilteredProjects(projects, Archviz) <==> p in projects && Mentions(p, "arch")
  {
    forall p ensures IsArchviz(p) <==> Mentions(p, "arch") {
      ContainsMeans(ToLower(p.category), "arch");
    }
  }

  /** "technical" keeps exactly those whose category contains "tech", "procedural" or "geometry". */
  lemma TechnicalExactly(projects: seq<Project>)
    ensures forall p :: p in FilteredProjects(projects, Technical) <==>
      p in projects && (Mentions(p, "tech") || Mentions(p, "procedural") || Mentions(p, "geometry"))
  {
    forall p ensures IsTechnical(p) <==> (Mentions(p, "tech") || Mentions(p, "procedural") || Mentions(p, "geometry")) {
      var c := ToLower(p.category);
      ContainsMeans(c, "tech");
      ContainsMeans(c, "procedural");
      ContainsMeans(c, "geometry");
    }
  }

  /** Whatever the filter, the result keeps the catalog's order and drops entries only. */
  lemma FilteredIsSubsequence(projects: seq<Project>, filter: FilterType)
    ensures Seqs.IsSubsequence(FilteredProjects(projects, filter), projects)
  {
    if filter == All {
      Seqs.SubsequenceOfSelf(projects);
    }
  }

  /** Filtering the shown projects again with the same filter changes nothing. */
  lemma FilterIdempotent(projects: seq<Project>, filter: FilterType)
    ensures FilteredProjects(FilteredProjects(projects, filter), filter) == FilteredProjects(projects, filter)
  {
    match filter
    case All =>
    case Archviz => Seqs.FilterAll(IsArchviz, Seqs.Filter(IsArchviz, projects));
    case Technical => Seqs.FilterAll(IsTechnical, Seqs.Filter(IsTechnical, projects));
  }

  /** The test ignores letter case: a category is classified as its lower-cased form is. */
  lemma CategoryCaseIgnored(p: Project, q: Project)
    requires q.category == ToLower(p.category)
    ensures IsArchviz(q) == IsArchviz(p) && IsTechnical(q) == IsTechnical(p)
  {
    ToLowerIdempotent(p.category);
  }
}
