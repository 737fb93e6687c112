/** The views of the portfolio: the home page, a project's detail page, the
    paginated project listing, the contact submission endpoint and the JSON
    project API. Tables are given as sequences of rows; a queryset filter is
    Filter, an order_by is Sort. */
module Views {
  import opened Text
  import opened Ordering
  import opened Models
  import opened Forms

  // ------------------------------------------------------------- querysets

  predicate IsVisibleProject(p: Project) {
    p.isVisible
  }

  predicate IsFeaturedVisible(p: Project) {
    p.featured && p.isVisible
  }

  /** Project.objects.filter(is_visible=True).order_by('order', '-created_at'). */
  function VisibleProjects(projects: seq<Project>): (r: seq<Project>)
    ensures SortedBy(r, ByOrderThenNewest)
    ensures forall p :: p in r <==> p in projects && p.isVisible
    ensures forall p :: multiset(r)[p] == if p.isVisible then multiset(projects)[p] else 0
  {
    ProjectOrdersArePreorders();
    SortSpec(Filter(projects, IsVisibleProject), ByOrderThenNewest);
    Sort(Filter(projects, IsVisibleProject), ByOrderThenNewest)
  }

  /** filter(featured=True, is_visible=True).first(): the first such project
      in the model's default order (order, then newest). */
  function FeaturedProject(projects: seq<Project>): Option<Project> {
    var c := Sort(Filter(projects, IsFeaturedVisible), ByOrderThenNewest);
    if c == [] then None else Some(c[0])
  }

  /** There is a featured project exactly when some visible project is
      featured, and it comes first among them in the default order. */
  lemma FeaturedProjectSpec(projects: seq<Project>)
    ensures FeaturedProject(projects).None? <==> forall p :: p in projects ==> !(p.featured && p.isVisible)
    ensures FeaturedProject(projects).Some? ==>
      var f := FeaturedProject(projects).value;
      && f in projects && f.featured && f.isVisible
      && forall p :: p in projects && p.featured && p.isVisible ==> ByOrderThenNewest(f, p)
  {
    var c := Sort(Filter(projects, IsFeaturedVisible), ByOrderThenNewest);
    ProjectOrdersArePreorders();
    SortSpec(Filter(projects, IsFeaturedVisible), ByOrderThenNewest);
    if c != [] {
      SortedFirstIsLeast(c, ByOrderThenNewest);
      assert c[0] in c;
    } else {
      forall p | p in projects ensures !(p.featured && p.isVisible) {
        assert p !in c;
      }
    }
  }

  // ---------------------------------------------------------- tech filters

  function Elements(s: seq<string>): set<string> {
    set x | x in s
  }

  /** The union of tech_stack_list over the given projects. */
  function AllTech(projects: seq<Project>): set<string> {
    if projects == [] then {}
    else AllTech(projects[..|projects| - 1]) + Elements(TechStackList(projects[|projects| - 1].techStack))
  }

  lemma {:induction false} AllTechSpec(projects: seq<Project>)
    ensures forall t :: t in AllTech(projects) <==> exists p :: p in projects && t in TechStackList(p.techStack)
  {
    if projects != [] {
      var init, last := projects[..|projects| - 1], projects[|projects| - 1];
      assert projects == init + [last];
      AllTechSpec(init);
    }
  }

  /** The tech-filter list of index and projects_list: every technology of
      the given projects once, in ascending order. */
  method CollectTechFilters(projects: seq<Project>) returns (filters: seq<string>)
    ensures filters == SortedList(AllTech(projects))
    ensures StrictlyAscending(filters)
    ensures forall t :: t in filters <==> exists p :: p in projects && t in TechStackList(p.techStack)
  {
    var allTech: set<string> := {};
    var i := 0;
    while i < |projects|
      invariant 0 <= i <= |projects|
      invariant allTech == AllTech(projects[..i])
    {
      var techs := TechStackList(projects[i].techStack);
      var j := 0;
      while j < |techs|
        invariant 0 <= j <= |techs|
        invariant allTech == AllTech(projects[..i]) + Elements(techs[..j])
      {
        assert techs[..j + 1] == techs[..j] + [techs[j]];
        allTech := allTech + {techs[j]};
        j := j + 1;
      }
      assert techs[..j] == techs;
      assert projects[..i + 1][..i] == projects[..i];
      i := i + 1;
    }
    assert projects[..i] == projects;
    AllTechSpec(projects);
    filters := SortedList(allTech);
  }

  /** Projects with the same members have the same technologies: the tech
      filters of index (the visible projects as ordered by order_by) and of
      projects_list (the visible projects in the model's default order)
      agree. */
  lemma AllTechSameMembers(a: seq<Project>, b: seq<Project>)
    requires forall p :: p in a <==> p in b
    ensures AllTech(a) == AllTech(b)
  {
    AllTechSpec(a);
    AllTechSpec(b);
  }

  // ---------------------------------------------------------------- skills

  /** Skill.get_category_display(): the heading of a category choice; a value
      outside the choices is shown as it is. */
  function CategoryLabel(key: string): string {
    if key == "frontend" then "Frontend"
    else if key == "backend" then "Backend"
    else if key == "tools" then "Tools & DevOps"
    else if key == "soft" then "Soft Skills"
    else key
  }

  predicate IsVisibleSkill(s: Skill) {
    s.isVisible
  }

  /** order_by('category', 'order') over skills. */
  predicate SkillByCategoryThenOrder(a: Skill, b: Skill) {
    Less(a.category, b.category) || (a.category == b.category && a.order <= b.order)
  }

  lemma SkillOrderIsPreorder()
    ensures TotalPreorder(SkillByCategoryThenOrder)
  {
    forall a: Skill, b: Skill ensures SkillByCategoryThenOrder(a, b) || SkillByCategoryThenOrder(b, a) {
      LessTotal(a.category, b.category);
    }
    forall a: Skill, b: Skill, c: Skill | SkillByCategoryThenOrder(a, b) && SkillByCategoryThenOrder(b, c)
      ensures SkillByCategoryThenOrder(a, c)
    {
      if Less(a.category, b.category) && Less(b.category, c.category) {
        LessTransitive(a.category, b.category, c.category);
      }
    }
  }

  /** Skill.objects.filter(is_visible=True).order_by('category', 'order'). */
  function VisibleSkills(skills: seq<Skill>): (r: seq<Skill>)
    ensures SortedBy(r, SkillByCategoryThenOrder)
    ensures forall s :: s in r <==> s in skills && s.isVisible
    ensures forall s :: multiset(r)[s] == if s.isVisible then multiset(skills)[s] else 0
  {
    SkillOrderIsPreorder();
    SortSpec(Filter(skills, IsVisibleSkill), SkillByCategoryThenOrder);
    Sort(Filter(skills, IsVisibleSkill), SkillByCategoryThenOrder)
  }

  /** One entry of skills_by_category: a heading and its skills. */
  datatype SkillGroup = SkillGroup(heading: string, skills: seq<Skill>)

  /** The skills whose category shows as the given heading, in input order. */
  function WithHeading(skills: seq<Skill>, heading: string): seq<Skill> {
    if skills == [] then []
    else
      var last := skills[|skills| - 1];
      WithHeading(skills[..|skills| - 1], heading) + (if CategoryLabel(last.category) == heading then [last] else [])
  }

  /** The labels of the skills, each once, in order of first appearance: the
      key order of the dict built by index. */
  function Headings(skills: seq<Skill>): seq<string> {
    if skills == [] then []
    else
      var init := Headings(skills[..|skills| - 1]);
      var heading := CategoryLabel(skills[|skills| - 1].category);
      if heading in init then init else init + [heading]
  }

  /** groups is the dict skills_by_category for the skill list: one group per
      heading in order of first appearance, holding that heading's skills. */
  predicate GroupsFor(groups: seq<SkillGroup>, skills: seq<Skill>) {
    && |groups| == |Headings(skills)|
    && forall k :: 0 <= k < |groups| ==>
         groups[k].heading == Headings(skills)[k] && groups[k].skills == WithHeading(skills, groups[k].heading)
  }

  lemma {:induction false} HeadingsSpec(skills: seq<Skill>)
    ensures forall x :: x in Headings(skills) <==> exists s :: s in skills && CategoryLabel(s.category) == x
    ensures forall i, j :: 0 <= i < j < |Headings(skills)| ==> Headings(skills)[i] != Headings(skills)[j]
  {
    if skills != [] {
      var init, last := skills[..|skills| - 1], skills[|skills| - 1];
      assert skills == init + [last];
      HeadingsSpec(init);
    }
  }

  lemma {:induction false} WithHeadingSpec(skills: seq<Skill>, heading: string)
    ensures forall s :: s in WithHeading(skills, heading) <==> s in skills && CategoryLabel(s.category) == heading
  {
    if skills != [] {
      var init, last := skills[..|skills| - 1], skills[|skills| - 1];
      assert skills == init + [last];
      WithHeadingSpec(init, heading);
    }
  }

  /** A heading no skill shows has no skills. */
  lemma {:induction false} WithHeadingNone(skills: seq<Skill>, heading: string)
    requires heading !in Headings(skills)
    ensures WithHeading(skills, heading) == []
  {
    if skills != [] {
      var init, last := skills[..|skills| - 1], skills[|skills| - 1];
      assert forall x :: x in Headings(init) ==> x in Headings(skills);
      WithHeadingNone(init, heading);
    }
  }

  lemma WithHeadingAppend(skills: seq<Skill>, s: Skill, heading: string)
    ensures WithHeading(skills + [s], heading) == WithHeading(skills, heading) + (if CategoryLabel(s.category) == heading then [s] else [])
  {
    assert (skills + [s])[..|skills|] == skills;
  }

  lemma HeadingsAppend(skills: seq<Skill>, s: Skill)
    ensures Headings(skills + [s]) ==
      (if CategoryLabel(s.category) in Headings(skills) then Headings(skills) else Headings(skills) + [CategoryLabel(s.category)])
  {
    assert (skills + [s])[..|skills|] == skills;
  }

  /** Position of the group with the given heading, or |groups| when there is none. */
  function IndexOfHeading(groups: seq<SkillGroup>, heading: string): nat {
    FirstIndex(groups, (g: SkillGroup) => g.heading == heading)
  }

  /** One step of the grouping loop: the skill joins the group of its heading,
      which is created at the end when missing. */
  function AddSkill(groups: seq<SkillGroup>, s: Skill): seq<SkillGroup> {
    var heading := CategoryLabel(s.category);
    var k := IndexOfHeading(groups, heading);
    if k < |groups| then groups[k := SkillGroup(heading, groups[k].skills + [s])]
    else groups + [SkillGroup(heading, [s])]
  }

  lemma AddSkillStep(groups: seq<SkillGroup>, skills: seq<Skill>, s: Skill)
    requires GroupsFor(groups, skills)
    ensures GroupsFor(AddSkill(groups, s), skills + [s])
  {
    var heading := CategoryLabel(s.category);
    var k := IndexOfHeading(groups, heading);
    var next := AddSkill(groups, s);
    HeadingsSpec(skills);
    HeadingsAppend(skills, s);
    forall g | 0 <= g < |next| ensures next[g].skills == WithHeading(skills + [s], next[g].heading) {
      WithHeadingAppend(skills, s, next[g].heading);
      if g == |groups| {
        WithHeadingNone(skills, heading);
      }
    }
  }

  /** index: builds skills_by_category by walking the visible skills in
      (category, order) order and appending each to the list of its heading. */
  method GroupSkills(skills: seq<Skill>) returns (groups: seq<SkillGroup>)
    ensures GroupsFor(groups, skills)
  {
    groups := [];
    var i := 0;
    while i < |skills|
      invariant 0 <= i <= |skills|
      invariant GroupsFor(groups, skills[..i])
    {
      AddSkillStep(groups, skills[..i], skills[i]);
      assert skills[..i + 1] == skills[..i] + [skills[i]];
      groups := AddSkill(groups, skills[i]);
      i := i + 1;
    }
    assert skills[..i] == skills;
  }

  /** Every skill lands in exactly one group, the one keyed by its heading, and
      every group is the heading of some skill. */
  lemma GroupsPartition(groups: seq<SkillGroup>, skills: seq<Skill>)
    requires GroupsFor(groups, skills)
    ensures forall i, j :: 0 <= i < j < |groups| ==> groups[i].heading != groups[j].heading
    ensures forall k, s :: 0 <= k < |groups| ==>
              (s in groups[k].skills <==> s in skills && CategoryLabel(s.category) == groups[k].heading)
    ensures forall s :: s in skills ==> exists k :: 0 <= k < |groups| && groups[k].heading == CategoryLabel(s.category)
  {
    HeadingsSpec(skills);
    forall k | 0 <= k < |groups| {
      WithHeadingSpec(skills, groups[k].heading);
    }
    forall s | s in skills ensures exists k :: 0 <= k < |groups| && groups[k].heading == CategoryLabel(s.category) {
      var x := CategoryLabel(s.category);
      assert x in Headings(skills);
      var k :| 0 <= k < |Headings(skills)| && Headings(skills)[k] == x;
      assert groups[k].heading == x;
    }
  }

  /** A heading's skills keep the order of the input. */
  lemma {:induction false} WithHeadingSorted(skills: seq<Skill>, heading: string, le: (Skill, Skill) -> bool)
    requires SortedBy(skills, le)
    ensures SortedBy(WithHeading(skills, heading), le)
  {
    if skills != [] {
      var init, last := skills[..|skills| - 1], skills[|skills| - 1];
      assert SortedBy(init, le);
      WithHeadingSorted(init, heading, le);
      WithHeadingSpec(init, heading);
      var w := WithHeading(init, heading);
      forall x | x in w ensures le(x, last) {
        var i :| 0 <= i < |init| && init[i] == x;
        assert skills[i] == x;
      }
    }
  }

  /** Within each group of the home page, skills keep the (category, order) order. */
  lemma GroupsKeepOrder(groups: seq<SkillGroup>, skills: seq<Skill>)
    requires GroupsFor(groups, VisibleSkills(skills))
    ensures forall k :: 0 <= k < |groups| ==> SortedBy(groups[k].skills, SkillByCategoryThenOrder)
  {
    forall k | 0 <= k < |groups| {
      WithHeadingSorted(VisibleSkills(skills), groups[k].heading, SkillByCategoryThenOrder);
    }
  }

  // ------------------------------------------------ testimonials, timeline

  predicate IsVisibleTestimonial(t: Testimonial) {
    t.isVisible
  }

  predicate TestimonialByOrder(a: Testimonial, b: Testimonial) {
    a.order <= b.order
  }

  /** Testimonial.objects.filter(is_visible=True).order_by('order'). */
  function VisibleTestimonials(testimonials: seq<Testimonial>): (r: seq<Testimonial>)
    ensures SortedBy(r, TestimonialByOrder)
    ensures forall t :: t in r <==> t in testimonials && t.isVisible
    ensures forall t :: multiset(r)[t] == if t.isVisible then multiset(testimonials)[t] else 0
  {
    SortSpec(Filter(testimonials, IsVisibleTestimonial), TestimonialByOrder);
    Sort(Filter(testimonials, IsVisibleTestimonial), TestimonialByOrder)
  }

  predicate IsVisibleEvent(e: TimelineEvent) {
    e.isVisible
  }

  predicate EventByOrder(a: TimelineEvent, b: TimelineEvent) {
    a.order <= b.order
  }

  /** TimelineEvent.objects.filter(is_visible=True).order_by('order'). */
  function VisibleTimeline(events: seq<TimelineEvent>): (r: seq<TimelineEvent>)
    ensures SortedBy(r, EventByOrder)
    ensures forall e :: e in r <==> e in events && e.isVisible
    ensures forall e :: multiset(r)[e] == if e.isVisible then multiset(events)[e] else 0
  {
    SortSpec(Filter(events, IsVisibleEvent), EventByOrder);
    Sort(Filter(events, IsVisibleEvent), EventByOrder)
  }

  // --------------------------------------------------------- project detail

  /** A visible project of the given category other than the one with id self. */
  predicate IsRelated(p: Project, category: string, self: nat) {
    p.category == category && p.isVisible && p.id != self
  }

  const RelatedLimit: nat := 3

  /** filter(category=..., is_visible=True).exclude(pk=...).order_by('order')[:3]. */
  function RelatedProjects(projects: seq<Project>, project: Project): seq<Project> {
    var category, self := project.category, project.id;
    Take(Sort(Filter(projects, p => IsRelated(p, category, self)), ProjectByOrder), RelatedLimit)
  }

  /** At most three related projects, each visible, of the same category and
      not the project itself, ascending by order, as many as there are up to
      three, and none left out has a lower order than one taken. */
  lemma RelatedProjectsSpec(projects: seq<Project>, project: Project)
    ensures var r := RelatedProjects(projects, project);
      && |r| <= RelatedLimit
      && (forall p :: p in r ==> p in projects && IsRelated(p, project.category, project.id))
      && SortedBy(r, ProjectByOrder)
      && |r| == Min(RelatedLimit, |Filter(projects, p => IsRelated(p, project.category, project.id))|)
      && (forall p, q :: p in r && q in projects && IsRelated(q, project.category, project.id) && q !in r ==> p.order <= q.order)
      && forall p :: multiset(r)[p] <= multiset(projects)[p]
  {
    var category, self := project.category, project.id;
    var c := Filter(projects, p => IsRelated(p, category, self));
    ProjectOrdersArePreorders();
    SortSpec(c, ProjectByOrder);
    TakeSortedLowest(Sort(c, ProjectByOrder), RelatedLimit, ProjectByOrder);
    RelatedProjectsCounts(projects, project);
  }

  /** No related project is listed more often than it is stored. */
  lemma RelatedProjectsCounts(projects: seq<Project>, project: Project)
    ensures forall p :: multiset(RelatedProjects(projects, project))[p] <= multiset(projects)[p]
  {
    var category, self := project.category, project.id;
    var c := Filter(projects, p => IsRelated(p, category, self));
    TakePrefix(Sort(c, ProjectByOrder), RelatedLimit);
  }

  function Min(a: nat, b: nat): nat {
    if a < b then a else b
  }

  /** The outcome of project_detail: get_object_or_404 raises Http404 when no
      visible project has the slug and MultipleObjectsReturned when several do. */
  datatype DetailOutcome = NotFound | MultipleFound | Found(project: Project, related: seq<Project>)

  predicate HasSlug(p: Project, slug: string) {
    p.slug == slug && p.isVisible
  }

  /** project_detail: the visible project with the slug and its related projects. */
  function ProjectDetail(projects: seq<Project>, slug: string): DetailOutcome {
    var matches := Filter(projects, p => HasSlug(p, slug));
    if matches == [] then NotFound
    else if |matches| > 1 then MultipleFound
    else Found(matches[0], RelatedProjects(projects, matches[0]))
  }

  /** On a table with unique slugs the page is found exactly when a visible
      project has the slug, and then it shows that project. */
  lemma ProjectDetailSpec(projects: seq<Project>, nextId: nat, slug: string)
    requires ValidTable(projects, nextId)
    ensures ProjectDetail(projects, slug).NotFound? <==> forall p :: p in projects ==> !(p.slug == slug && p.isVisible)
    ensures !ProjectDetail(projects, slug).MultipleFound?
    ensures ProjectDetail(projects, slug).Found? ==>
      var d := ProjectDetail(projects, slug);
      d.project in projects && d.project.slug == slug && d.project.isVisible
      && d.related == RelatedProjects(projects, d.project)
  {
    var matches := Filter(projects, p => HasSlug(p, slug));
    UniqueSlugMatches(projects, nextId, slug);
    if matches != [] {
      assert matches[0] in matches;
    } else {
      forall p | p in projects ensures !(p.slug == slug && p.isVisible) {
        assert p !in matches;
      }
    }
  }

  /** With unique slugs at most one row has a given slug. */
  lemma {:induction false} UniqueSlugMatches(projects: seq<Project>, nextId: nat, slug: string)
    requires ValidTable(projects, nextId)
    ensures |Filter(projects, p => HasSlug(p, slug))| <= 1
  {
    if projects != [] {
      var init, last := projects[..|projects| - 1], projects[|projects| - 1];
      assert ValidTable(init, nextId);
      UniqueSlugMatches(init, nextId, slug);
      if HasSlug(last, slug) {
        forall x | x in init ensures !HasSlug(x, slug) {
          var i :| 0 <= i < |init| && init[i] == x;
          assert projects[i] == x;
        }
        FilterNone(init, p => HasSlug(p, slug));
      }
    }
  }

  // -------------------------------------------------------- projects_list

  /** A query-string parameter counts only when present and non-empty. */
  predicate Given(param: Option<string>) {
    param.Some? && param.value != ""
  }

  predicate InCategory(p: Project, category: string) {
    p.category == category
  }

  /** tech_stack__contains=tech on the JSON column, as PostgreSQL's jsonb
      containment decides it: a list contains the string as an element, a
      string value contains only itself, other values contain nothing. */
  predicate TechContains(t: TechStack, tech: string) {
    match t
    case TechList(items) => tech in items
    case TechText(text) => text == tech
    case TechOther => false
  }

  predicate UsesTech(p: Project, tech: string) {
    TechContains(p.techStack, tech)
  }

  /** filter(category=...) when the parameter is given: keeps the projects of
      that category, each as often as before. */
  function ByCategory(projects: seq<Project>, category: Option<string>): (r: seq<Project>)
    ensures forall p :: multiset(r)[p] == if Given(category) ==> p.category == category.value then multiset(projects)[p] else 0
  {
    if Given(category) then var c := category.value; Filter(projects, p => InCategory(p, c)) else projects
  }

  /** filter(tech_stack__contains=...) when the parameter is given: keeps the
      projects using that technology, each as often as before. */
  function ByTech(projects: seq<Project>, tech: Option<string>): (r: seq<Project>)
    ensures forall p :: multiset(r)[p] == if Given(tech) ==> TechContains(p.techStack, tech.value) then multiset(projects)[p] else 0
  {
    if Given(tech) then var t := tech.value; Filter(projects, p => UsesTech(p, t)) else projects
  }

  /** The projects projects_list pages through: the visible ones in default
      order, narrowed by category and then by technology when given. */
  function ListingQuery(projects: seq<Project>, category: Option<string>, tech: Option<string>): seq<Project> {
    ByTech(ByCategory(VisibleProjects(projects), category), tech)
  }

  /** Whether the listing, for the given filters, shows a project. */
  predicate Listed(p: Project, category: Option<string>, tech: Option<string>) {
    && p.isVisible
    && (Given(category) ==> p.category == category.value)
    && (Given(tech) ==> TechContains(p.techStack, tech.value))
  }

  /** The listing holds exactly the visible projects that match the given
      filters, each as often as it is stored, in (order, newest first) order. */
  lemma ListingQuerySpec(projects: seq<Project>, category: Option<string>, tech: Option<string>)
    ensures SortedBy(ListingQuery(projects, category, tech), ByOrderThenNewest)
    ensures forall p :: p in ListingQuery(projects, category, tech) <==> p in projects && Listed(p, category, tech)
    ensures forall p :: multiset(ListingQuery(projects, category, tech))[p]
                        == if Listed(p, category, tech) then multiset(projects)[p] else 0
  {
    var visible := VisibleProjects(projects);
    var byCategory := ByCategory(visible, category);
    if Given(category) {
      var c := category.value;
      FilterSorted(visible, p => InCategory(p, c), ByOrderThenNewest);
    }
    if Given(tech) {
      var t := tech.value;
      FilterSorted(byCategory, p => UsesTech(p, t), ByOrderThenNewest);
    }
  }

  /** The page number parameter as Paginator.get_page receives it: absent,
      not an integer, or an integer. */
  datatype PageParam = NoPage | NotAnInteger | PageNumber(n: int)

  const PerPage: nat := 9

  /** Paginator.num_pages with 9 per page: at least one page, even when empty. */
  function NumPages(count: nat): (r: nat)
    ensures r >= 1
    ensures (r - 1) * PerPage < count || (count == 0 && r == 1)
    ensures count <= r * PerPage
  {
    if count == 0 then 1 else (count + PerPage - 1) / PerPage
  }

  /** Paginator.get_page: a missing or non-integer page gives page 1, a page
      below 1 or past the end gives the last page. */
  function PageIndex(count: nat, param: PageParam): (r: nat)
    ensures 1 <= r <= NumPages(count)
    ensures param.PageNumber? && 1 <= param.n <= NumPages(count) ==> r == param.n
    ensures !param.PageNumber? ==> r == 1
    ensures param.PageNumber? && !(1 <= param.n <= NumPages(count)) ==> r == NumPages(count)
  {
    match param
    case NoPage => 1
    case NotAnInteger => 1
    case PageNumber(n) => if 1 <= n <= NumPages(count) then n else NumPages(count)
  }

  datatype Page<T> = Page(number: nat, items: seq<T>)

  /** Paginator(items, 9).get_page(param). */
  function Paginate<T>(items: seq<T>, param: PageParam): (r: Page<T>)
    ensures 1 <= r.number <= NumPages(|items|)
    ensures |r.items| <= PerPage
    ensures (r.number - 1) * PerPage + |r.items| <= |items|
    ensures r.items == items[(r.number - 1) * PerPage .. (r.number - 1) * PerPage + |r.items|]
    ensures forall x :: x in r.items ==> x in items
    ensures r.number < NumPages(|items|) ==> |r.items| == PerPage
    ensures r.number == NumPages(|items|) ==> (r.number - 1) * PerPage + |r.items| == |items|
  {
    var number := PageIndex(|items|, param);
    var bottom := (number - 1) * PerPage;
    var top := if bottom + PerPage >= |items| then |items| else bottom + PerPage;
    Page(number, items[bottom..top])
  }

  /** Every listed item is on page i / 9 + 1, at position i % 9, and the pages
      before the last are full. */
  lemma PaginateLocates<T>(items: seq<T>, i: nat)
    requires i < |items|
    ensures var page := Paginate(items, PageNumber(i / PerPage + 1));
      page.number == i / PerPage + 1 && i % PerPage < |page.items| && page.items[i % PerPage] == items[i]
      && (page.number < NumPages(|items|) ==> |page.items| == PerPage)
  {
    var n := i / PerPage + 1;
    assert (n - 1) * PerPage <= i < n * PerPage;
    assert n <= NumPages(|items|);
  }

  /** The projects_list page. */
  datatype ListingPage = ListingPage(
    page: Page<Project>, techFilters: seq<string>,
    currentCategory: Option<string>, currentTech: Option<string>, settings: SiteSettings)

  /** projects_list: one page of the filtered listing, the tech filters of all
      visible projects whatever the filters, and the site settings. */
  method ProjectsList(settingsTable: SettingsTable, projects: seq<Project>,
                      category: Option<string>, tech: Option<string>, page: PageParam)
    returns (view: ListingPage)
    requires settingsTable.Valid()
    modifies settingsTable
    ensures settingsTable.Valid()
    ensures (view.settings, settingsTable.rows) == GetOrCreate(old(settingsTable.rows))
    ensures view.page == Paginate(ListingQuery(projects, category, tech), page)
    ensures StrictlyAscending(view.techFilters)
    ensures forall t :: t in view.techFilters <==>
      exists p :: p in projects && p.isVisible && t in TechStackList(p.techStack)
    ensures view.currentCategory == category && view.currentTech == tech
  {
    var selected := ListingQuery(projects, category, tech);
    var pageObj := Paginate(selected, page);
    var allProjects := Filter(projects, IsVisibleProject);
    var techFilters := CollectTechFilters(allProjects);
    var settings := settingsTable.GetSettings();
    view := ListingPage(pageObj, techFilters, category, tech, settings);
  }

  // ----------------------------------------------------------- api_projects

  /** One entry of the JSON project list. */
  datatype ApiItem = ApiItem(
    id: nat, title: string, slug: string, description: string, thumbnail: string,
    techStack: seq<string>, category: string, externalUrl: string, detailUrl: string, featured: bool)

  /** The reply of api_projects: the list, or the NoReverseMatch raised when a
      selected project's slug cannot be put into its URL. */
  datatype ApiReply = ApiData(items: seq<ApiItem>) | NoReverseMatch

  /** The path of the project_detail route, mounted at the site root. */
  const ProjectRoute: string := "/project/"

  predicate IsSlugChar(c: char) {
    ('a' <= c <= 'z') || ('A' <= c <= 'Z') || ('0' <= c <= '9') || c == '-' || c == '_'
  }

  /** The pattern of the slug path converter, [-a-zA-Z0-9_]+. */
  predicate MatchesSlugConverter(slug: string) {
    slug != [] && forall i :: 0 <= i < |slug| ==> IsSlugChar(slug[i])
  }

  /** Project.get_absolute_url, i.e. reverse() of the detail route: the route
      followed by the slug and a slash, or NoReverseMatch (None) when the slug
      does not match the converter, as for the empty slug. */
  function DetailUrl(slug: string): (r: Option<string>)
    ensures r.Some? <==> MatchesSlugConverter(slug)
    ensures r.Some? ==> |r.value| == |ProjectRoute| + |slug| + 1
    ensures r.Some? ==> r.value[..|ProjectRoute|] == ProjectRoute && r.value[|ProjectRoute|..|r.value| - 1] == slug
                        && r.value[|r.value| - 1] == '/'
  {
    if MatchesSlugConverter(slug) then Some(ProjectRoute + slug + "/") else None
  }

  /** Resolving a path against the detail route: the slug it carries, when it
      has the route's shape and the slug matches the converter. */
  function ResolveDetail(path: string): Option<string> {
    if |path| > |ProjectRoute| && path[..|ProjectRoute|] == ProjectRoute && path[|path| - 1] == '/' then
      var slug := path[|ProjectRoute|..|path| - 1];
      if MatchesSlugConverter(slug) then Some(slug) else None
    else None
  }

  /** A project's URL resolves back to its slug. */
  lemma DetailUrlResolves(slug: string)
    requires DetailUrl(slug).Some?
    ensures ResolveDetail(DetailUrl(slug).value) == Some(slug)
  {
  }

  /** Every path the detail route resolves is the URL of the slug it yields. */
  lemma ResolveDetailReverses(path: string)
    requires ResolveDetail(path).Some?
    ensures DetailUrl(ResolveDetail(path).value) == Some(path)
  {
    var slug := ResolveDetail(path).value;
    assert path == ProjectRoute + slug + "/";
  }

  /** The entry of a project whose slug has a URL. */
  function ApiItemOf(p: Project): ApiItem
    requires MatchesSlugConverter(p.slug)
  {
    ApiItem(p.id, p.title, p.slug, p.description, p.thumbnail, TechStackList(p.techStack),
            p.category, p.externalUrl, DetailUrl(p.slug).value, p.featured)
  }

  /** The projects api_projects lists: the visible ones by order, narrowed by
      technology and then by category when given. */
  function ApiSelection(projects: seq<Project>, tech: Option<string>, category: Option<string>): seq<Project> {
    ByCategory(ByTech(Sort(Filter(projects, IsVisibleProject), ProjectByOrder), tech), category)
  }

  lemma ApiSelectionSorted(projects: seq<Project>, tech: Option<string>, category: Option<string>)
    ensures SortedBy(ApiSelection(projects, tech, category), ProjectByOrder)
  {
    var visible := Sort(Filter(projects, IsVisibleProject), ProjectByOrder);
    ProjectOrdersArePreorders();
    SortSorted(Filter(projects, IsVisibleProject), ProjectByOrder);
    var byTech := ByTech(visible, tech);
    if Given(tech) {
      var t := tech.value;
      FilterSorted(visible, p => UsesTech(p, t), ProjectByOrder);
    }
    if Given(category) {
      var c := category.value;
      FilterSorted(byTech, p => InCategory(p, c), ProjectByOrder);
    }
  }

  lemma ApiSelectionCounts(projects: seq<Project>, tech: Option<string>, category: Option<string>)
    ensures forall p :: multiset(ApiSelection(projects, tech, category))[p]
                        == if Listed(p, category, tech) then multiset(projects)[p] else 0
  {
    var visible := Sort(Filter(projects, IsVisibleProject), ProjectByOrder);
    assert forall p: Project :: multiset(visible)[p] == if p.isVisible then multiset(projects)[p] else 0;
  }

  /** The API lists exactly the projects the listing page would show for the
      same filters, each as often, ordered by order alone. */
  lemma ApiSelectionSpec(projects: seq<Project>, tech: Option<string>, category: Option<string>)
    ensures SortedBy(ApiSelection(projects, tech, category), ProjectByOrder)
    ensures multiset(ApiSelection(projects, tech, category)) == multiset(ListingQuery(projects, category, tech))
    ensures forall p :: p in ApiSelection(projects, tech, category) <==> p in ListingQuery(projects, category, tech)
  {
    ApiSelectionSorted(projects, tech, category);
    ApiSelectionCounts(projects, tech, category);
    ListingQuerySpec(projects, category, tech);
    var a, b := ApiSelection(projects, tech, category), ListingQuery(projects, category, tech);
    assert multiset(a) == multiset(b);
    forall p ensures p in a <==> p in b {
      assert p in a <==> multiset(a)[p] > 0;
      assert p in b <==> multiset(b)[p] > 0;
    }
  }

  /** api_projects: one item per selected project, in order, each carrying the
      project's fields, its normalised tech list and its detail URL; the
      request fails when some selected project's slug has no URL. */
  method ApiProjects(projects: seq<Project>, tech: Option<string>, category: Option<string>)
    returns (reply: ApiReply)
    ensures var selected := ApiSelection(projects, tech, category);
      && (reply.NoReverseMatch? <==> exists i :: 0 <= i < |selected| && !MatchesSlugConverter(selected[i].slug))
      && (reply.ApiData? ==>
            && (forall i :: 0 <= i < |selected| ==> MatchesSlugConverter(selected[i].slug))
            && |reply.items| == |selected|
            && forall i :: 0 <= i < |selected| ==> reply.items[i] == ApiItemOf(selected[i]))
  {
    var selected := ApiSelection(projects, tech, category);
    reply := ApiItems(selected);
  }

  /** The loop of api_projects that appends one item per project, stopping
      at the first project whose URL cannot be built. */
  method ApiItems(selected: seq<Project>) returns (reply: ApiReply)
    ensures reply.NoReverseMatch? <==> exists i :: 0 <= i < |selected| && !MatchesSlugConverter(selected[i].slug)
    ensures reply.ApiData? ==>
      && (forall i :: 0 <= i < |selected| ==> MatchesSlugConverter(selected[i].slug))
      && |reply.items| == |selected|
      && forall i :: 0 <= i < |selected| ==> reply.items[i] == ApiItemOf(selected[i])
  {
    var data: seq<ApiItem> := [];
    var i := 0;
    while i < |selected|
      invariant 0 <= i <= |selected|
      invariant |data| == i
      invariant forall k :: 0 <= k < i ==> MatchesSlugConverter(selected[k].slug)
      invariant forall k :: 0 <= k < i ==> data[k] == ApiItemOf(selected[k])
    {
      var url := DetailUrl(selected[i].slug);
      if url.None? {
        return NoReverseMatch;
      }
      data := data + [ApiItemOf(selected[i])];
      i := i + 1;
    }
    reply := ApiData(data);
  }

  // --------------------------------------------------------- contact_submit

  /** The JSON reply of contact_submit with its HTTP status. */
  datatype Reply = Reply(success: bool, status: nat, message: string, errors: seq<FieldError>)

  /** The thank-you text, character for character as the view holds it. */
  const ThankYou: string := "Grazie per il tuo messaggio! Ti risponder\U{221a}\U{2264} presto."

  /** contact_submit: a valid submission is stored as one new unread message
      and answered with success, whatever became of the notification mail
      (mailFailed); an invalid one stores nothing and is answered with the
      form errors and status 400. */
  method ContactSubmit(inbox: ContactInbox, post: Submission, isEmail: string -> bool, now: int, mailFailed: bool)
    returns (reply: Reply)
    requires inbox.Valid()
    modifies inbox
    ensures inbox.Valid()
    ensures Validate(post, isEmail).Ok? ==>
      var c := Validate(post, isEmail).value;
      && inbox.messages == old(inbox.messages) + [ContactMessage(old(inbox.nextId), c.name, c.email, c.subject, c.message, now, false)]
      && inbox.nextId == old(inbox.nextId) + 1
      && reply == Reply(true, 200, ThankYou, [])
    ensures Validate(post, isEmail).Err? ==>
      && inbox.messages == old(inbox.messages) && inbox.nextId == old(inbox.nextId)
      && reply == Reply(false, 400, "", Validate(post, isEmail).error)
  {
    var form := Validate(post, isEmail);
    if form.Ok? {
      var c := form.value;
      var stored := inbox.Create(c.name, c.email, c.subject, c.message, now);
      // send_mail runs with fail_silently=True inside a try whose except
      // swallows everything: its outcome (mailFailed) never reaches the reply.
      reply := Reply(true, 200, ThankYou, []);
    } else {
      reply := Reply(false, 400, "", form.error);
    }
  }

  // ------------------------------------------------------------------ index

  /** The context of the home page. */
  datatype HomePage = HomePage(
    settings: SiteSettings, featured: Option<Project>, projects: seq<Project>,
    techFilters: seq<string>, testimonials: seq<Testimonial>,
    skillsByCategory: seq<SkillGroup>, timeline: seq<TimelineEvent>)

  /** index: the site settings (created when missing), the featured project,
      the visible projects with their tech filters, and the visible
      testimonials, skills grouped by category and timeline events. */
  method Index(settingsTable: SettingsTable, projects: seq<Project>, testimonials: seq<Testimonial>,
               skills: seq<Skill>, events: seq<TimelineEvent>)
    returns (home: HomePage)
    requires settingsTable.Valid()
    modifies settingsTable
    ensures settingsTable.Valid()
    ensures (home.settings, settingsTable.rows) == GetOrCreate(old(settingsTable.rows))
    ensures home.featured == FeaturedProject(projects)
    ensures home.projects == VisibleProjects(projects)
    ensures home.techFilters == SortedList(AllTech(Filter(projects, IsVisibleProject)))
    ensures home.testimonials == VisibleTestimonials(testimonials)
    ensures GroupsFor(home.skillsByCategory, VisibleSkills(skills))
    ensures home.timeline == VisibleTimeline(events)
  {
    var settings := settingsTable.GetSettings();
    var featured := FeaturedProject(projects);
    var visible := VisibleProjects(projects);
    var techFilters := CollectTechFilters(visible);
    AllTechSameMembers(visible, Filter(projects, IsVisibleProject));
    var groups := GroupSkills(VisibleSkills(skills));
    home := HomePage(settings, featured, visible, techFilters, VisibleTestimonials(testimonials), groups, VisibleTimeline(events));
  }

  /** A hidden project never reaches a page: not as the featured project, not
      in the home page or listing, not among related projects, not in the API. */
  lemma HiddenProjectNeverShown(projects: seq<Project>, p: Project, detail: Project,
                                category: Option<string>, tech: Option<string>, page: PageParam)
    requires !p.isVisible
    ensures FeaturedProject(projects) != Some(p)
    ensures p !in VisibleProjects(projects)
    ensures p !in Paginate(ListingQuery(projects, category, tech), page).items
    ensures p !in RelatedProjects(projects, detail)
    ensures p !in ApiSelection(projects, tech, category)
  {
    FeaturedProjectSpec(projects);
    ListingQuerySpec(projects, category, tech);
    RelatedProjectsSpec(projects, detail);
    ApiSelectionSpec(projects, tech, category);
  }
}
