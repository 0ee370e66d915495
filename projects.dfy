/**
 * The Projects section: a static catalogue of project records, a category
 * filter chosen by buttons ('all' shows everything), and per-project cards
 * that show the first three features, a live-demo link when there is a
 * URL, an "In Progress" badge and an icon chosen by category.
 */
module Projects {
  import opened Options
  import opened JsString

  /** A project record; the description, image and technology list are rendered verbatim and are left out. */
  datatype Project = Project(
    id: int,
    title: string,
    category: string,
    liveUrl: Option<string>,
    githubUrl: string,
    features: seq<string>,
    status: string)

  const Catalogue: seq<Project> := [
    Project(1, "EthioTour Website", "web", Some("https://ethiotour.com"),
      "https://github.com/bekalu/ethiotour",
      ["Responsive Design", "Booking System", "Interactive Maps", "Admin Dashboard"], "completed"),
    Project(2, "E-Commerce Platform", "fullstack", Some("https://ecommerce-demo.com"),
      "https://github.com/bekalu/ecommerce",
      ["Payment Processing", "User Authentication", "Admin Panel", "Real-time Updates"], "completed"),
    Project(3, "Task Management App", "web", Some("https://taskapp-demo.com"),
      "https://github.com/bekalu/taskapp",
      ["Real-time Collaboration", "Drag & Drop", "Progress Tracking", "Team Management"], "completed"),
    Project(4, "Weather Dashboard", "web", Some("https://weather-dashboard.com"),
      "https://github.com/bekalu/weather-app",
      ["Location Detection", "Interactive Charts", "Weather Alerts", "Responsive Design"], "completed"),
    Project(5, "Portfolio Website", "web", Some("https://bekalu-portfolio.com"),
      "https://github.com/bekalu/portfolio",
      ["Smooth Animations", "Dark Mode", "Responsive Design", "SEO Optimized"], "completed"),
    Project(6, "Mobile Banking App", "mobile", None,
      "https://github.com/bekalu/banking-app",
      ["Secure Authentication", "Transaction History", "Bill Payments", "Push Notifications"], "in-progress")
  ]

  /** `projects.filter(project => project.category === category)`: every project kept is listed and of that category. */
  function FilterByCategory(projects: seq<Project>, category: string): (r: seq<Project>)
    ensures |r| <= |projects|
    ensures forall i :: 0 <= i < |r| ==> r[i] in projects && r[i].category == category
  {
    if projects == [] then []
    else
      var rest := FilterByCategory(projects[1..], category);
      if projects[0].category == category then [projects[0]] + rest else rest
  }

  /** `filteredProjects`: the whole list for 'all', otherwise the projects of the chosen category. */
  function FilteredProjects(projects: seq<Project>, activeFilter: string): (r: seq<Project>)
    ensures |r| <= |projects|
    ensures activeFilter == "all" ==> r == projects
    ensures activeFilter != "all" ==> forall i :: 0 <= i < |r| ==> r[i] in projects && r[i].category == activeFilter
  {
    if activeFilter == "all" then projects else FilterByCategory(projects, activeFilter)
  }

  /** `a` is `b` with some elements dropped and the rest kept in order. */
  predicate IsSubsequence<T(==)>(a: seq<T>, b: seq<T>)
    decreases |b|
  {
    a == [] || (b != [] && ((a[0] == b[0] && IsSubsequence(a[1..], b[1..])) || IsSubsequence(a, b[1..])))
  }

  /** The 'all' filter shows the catalogue unchanged. */
  lemma AllShowsEverything(projects: seq<Project>)
    ensures FilteredProjects(projects, "all") == projects
  {
  }

  /**
   * Any other filter keeps exactly the projects of that category, each as
   * often as it occurs in the list.
   */
  lemma {:induction false} FilterKeepsExactlyTheCategory(projects: seq<Project>, category: string)
    ensures forall p :: multiset(FilterByCategory(projects, category))[p] ==
                        if p.category == category then multiset(projects)[p] else 0
  {
    if projects != [] {
      FilterKeepsExactlyTheCategory(projects[1..], category);
      assert projects == [projects[0]] + projects[1..];
    }
  }

  /** Membership form of the same fact, for the filter as the component applies it. */
  lemma FilteredMembership(projects: seq<Project>, activeFilter: string, p: Project)
    requires activeFilter != "all"
    ensures p in FilteredProjects(projects, activeFilter) <==> p in projects && p.category == activeFilter
  {
    FilterKeepsExactlyTheCategory(projects, activeFilter);
    assert p in FilteredProjects(projects, activeFilter) <==> multiset(FilteredProjects(projects, activeFilter))[p] > 0;
    assert p in projects <==> multiset(projects)[p] > 0;
  }

  /** Filtering keeps the order of the catalogue: the result is a subsequence of it. */
  lemma {:induction false} FilterIsSubsequence(projects: seq<Project>, category: string)
    ensures IsSubsequence(FilterByCategory(projects, category), projects)
  {
    if projects != [] {
      FilterIsSubsequence(projects[1..], category);
      var r := FilterByCategory(projects, category);
      if projects[0].category == category {
        assert r[1..] == FilterByCategory(projects[1..], category);
      }
    }
  }

  /** No project of this site is in the 'design' category, so that filter shows an empty grid. */
  lemma DesignFilterIsEmpty()
    ensures FilteredProjects(Catalogue, "design") == []
  {

  }

  /** The icons of `getCategoryIcon`. */
  datatype Icon = Code | Database | Palette

  /** `getCategoryIcon`: total; any category it does not know gets the default icon, Code. */
  function CategoryIcon(category: string): (icon: Icon)
    ensures icon == Database <==> category == "mobile"
    ensures icon == Palette <==> category == "design"
    ensures category !in {"web", "mobile", "design", "fullstack"} ==> icon == Code
  {
    match category
    case "web" => Code
    case "mobile" => Database
    case "design" => Palette
    case "fullstack" => Code
    case _ => Code
  }

  const MaxShownFeatures: nat := 3

  /** `features.slice(0, 3)`: the first three features in order, or all of them when there are fewer. */
  function ShownFeatures(p: Project): (r: seq<string>)
    ensures r <= p.features
    ensures |r| <= MaxShownFeatures
    ensures |p.features| <= MaxShownFeatures ==> r == p.features
    ensures |p.features| >= MaxShownFeatures ==> |r| == MaxShownFeatures
  {
    if |p.features| <= MaxShownFeatures then p.features else p.features[..MaxShownFeatures]
  }

  /** What one project card shows. */
  datatype Card = Card(
    icon: Icon,
    title: string,
    features: seq<string>,
    liveLink: Option<string>,
    codeLink: string,
    inProgressBadge: bool)

  /**
   * A project's card: the live-demo link and its overlay icon appear only
   * for a truthy `liveUrl`, the badge only for status 'in-progress'.
   */
  function RenderCard(p: Project): (c: Card)
    ensures c.liveLink.Some? <==> p.liveUrl.Some? && p.liveUrl.value != ""
    ensures c.liveLink.Some? ==> c.liveLink == p.liveUrl
    ensures c.inProgressBadge <==> p.status == "in-progress"
    ensures c.icon == CategoryIcon(p.category)
    ensures c.features == ShownFeatures(p) && c.codeLink == p.githubUrl && c.title == p.title
  {
    Card(
      CategoryIcon(p.category),
      p.title,
      ShownFeatures(p),
      if Truthy(p.liveUrl) then p.liveUrl else None,
      p.githubUrl,
      p.status == "in-progress")
  }

  /** The grid for a filter: one card per filtered project, in order. */
  function RenderGrid(projects: seq<Project>, activeFilter: string): (cards: seq<Card>)
    ensures |cards| == |FilteredProjects(projects, activeFilter)|
    ensures forall i :: 0 <= i < |cards| ==> cards[i] == RenderCard(FilteredProjects(projects, activeFilter)[i])
  {
    var shown := FilteredProjects(projects, activeFilter);
    seq(|shown|, i requires 0 <= i < |shown| => RenderCard(shown[i]))
  }

  /** On this site only the banking app lacks a live demo and carries the badge. */
  lemma CatalogueCards()
    ensures forall i :: 0 <= i < 5 ==> RenderCard(Catalogue[i]).liveLink.Some? && !RenderCard(Catalogue[i]).inProgressBadge
    ensures RenderCard(Catalogue[5]).liveLink == None && RenderCard(Catalogue[5]).inProgressBadge
  {
  }
}
