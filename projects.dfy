/**
 * The project gallery (`Projects` in src/components/Projects.tsx): a fixed
 * list of projects, a row of tag buttons ("all" followed by every tag used by
 * some project, once each, in order of first use) and the projects shown for
 * the selected tag.
 */
module Projects {
  import opened Wrappers
  import opened Sequences

  datatype Project = Project(
    id: int,
    title: string,
    description: string,
    technologies: seq<string>,
    image: string,
    githubUrl: string,
    liveUrl: Option<string>)

  /** The filter value that shows every project. */
  const AllTag := "all"

  /** The filter the gallery starts with. */
  const InitialFilter := AllTag

  /** The three projects of the gallery, in display order. */
  const Catalogue: seq<Project> := [
    Project(1, "E-Commerce Platform",
      "A full-featured online store with cart functionality and payment integration",
      ["jinja", "python django", "postgresql", "daraja"],
      "https://images.unsplash.com/photo-1557821552-17105176677c?w=800&q=80",
      "https://github.com/trent130/EasyMarket", None),
    Project(2, "Real Estate Management System",
      "Collaborative project management tool with real-time updates",
      ["TypeScript", "python django", "postgresql", "Tailwind", "nest.js"],
      "https://images.unsplash.com/photo-1454165804606-c3d57bc86b40?w=800&q=80",
      "https://github.com/trent130/hello", None),
    Project(3, "Kahoot-like Game",
      "Web application that you can make a quiz and collaborate between friends",
      ["postgresql", "nest.js", "angular", "tailwindcss"],
      "https://images.unsplash.com/photo-1547954575-855750c57bd3?w=800&q=80",
      "https://github.com/Tech-Titan-Labs/kapoow", None)
  ]

  /**
   * `filteredProjects`: with "all", every project in order; with any other
   * tag, exactly the projects listing that tag, in their original order and
   * multiplicity.
   */
  function FilteredProjects(projects: seq<Project>, filter: string): (r: seq<Project>)
    ensures filter == AllTag ==> r == projects
    ensures IsSubsequence(r, projects)
    ensures filter != AllTag ==>
      forall p :: multiset(r)[p] == if filter in p.technologies then multiset(projects)[p] else 0
    ensures filter != AllTag ==> forall p :: p in r <==> p in projects && filter in p.technologies
  {
    Filter(projects, (p: Project) => filter == AllTag || filter in p.technologies)
  }

  /** `projects.flatMap(p => p.technologies)`: all tags, project by project. */
  function AllTags(projects: seq<Project>): (tags: seq<string>)
    ensures forall t :: t in tags <==> exists p :: p in projects && t in p.technologies
  {
    if |projects| == 0 then []
    else
      var rest := AllTags(projects[1..]);
      assert forall p :: p in projects <==> p == projects[0] || p in projects[1..];
      projects[0].technologies + rest
  }

  /**
   * `['all', ...new Set(projects.flatMap(p => p.technologies))]`: the tag
   * buttons. They start with "all"; the rest are pairwise distinct, are exactly
   * the tags some project lists, and appear in the order in which the tags
   * first occur when the projects' tag lists are read one after another.
   */
  function TagButtons(projects: seq<Project>): (buttons: seq<string>)
    ensures |buttons| >= 1 && buttons[0] == AllTag
    ensures forall i, j :: 1 <= i < j < |buttons| ==> buttons[i] != buttons[j]
    ensures forall t :: t in buttons[1..] <==> exists p :: p in projects && t in p.technologies
    ensures forall i, j :: 1 <= i < j < |buttons| ==>
      IndexOf(AllTags(projects), buttons[i]) < IndexOf(AllTags(projects), buttons[j])
  {
    var tags := AllTags(projects);
    var d := Distinct(tags);
    var b := [AllTag] + d;
    assert b[1..] == d;
    assert forall i, j :: 1 <= i < j < |b| ==> IndexOf(tags, b[i]) < IndexOf(tags, b[j]) by {
      forall i, j | 1 <= i < j < |b|
        ensures IndexOf(tags, b[i]) < IndexOf(tags, b[j])
      {
        assert b[i] == d[i - 1] && b[j] == d[j - 1];
      }
    }
    b
  }

  /**
   * Every tag button selects at least one project: a tag is offered only
   * because some project lists it (and "all" selects every project).
   */
  lemma {:induction false} TagButtonSelectsSome(projects: seq<Project>, i: nat)
    requires 1 <= i < |TagButtons(projects)|
    ensures FilteredProjects(projects, TagButtons(projects)[i]) != []
  {
    var tag := TagButtons(projects)[i];
    assert tag in TagButtons(projects)[1..];
    var p :| p in projects && tag in p.technologies;
    assert p in FilteredProjects(projects, tag);
  }

  /** The gallery opens on "all", showing every project in order. */
  lemma InitialViewShowsAll()
    ensures FilteredProjects(Catalogue, InitialFilter) == Catalogue
  {
  }
}
