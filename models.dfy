/** The content store of the portfolio: its six entity kinds, the slug rule
    and tech-stack accessor of Project, the SiteSettings singleton and the
    table of contact messages. */
module Models {
  import opened Text
  import opened Ordering

  datatype Option<T> = None | Some(value: T)

  /** What the tech_stack JSON column holds: a list, a legacy
      comma-separated string, or some other JSON value. List items are taken
      to be strings; lists holding other JSON values are not represented. */
  datatype TechStack = TechList(items: seq<string>) | TechText(text: string) | TechOther

  /** A Project row. An id of 0 stands for an instance that has not been
      saved yet (pk None); saved rows have ids from 1 up. Timestamps are
      plain integers. */
  datatype Project = Project(
    id: nat,
    title: string,
    slug: string,
    description: string,
    thumbnail: string,
    techStack: TechStack,
    externalUrl: string,
    featured: bool,
    category: string,
    order: nat,
    createdAt: int,
    isVisible: bool)

  datatype Testimonial = Testimonial(
    id: nat, name: string, role: string, quote: string,
    project: Option<nat>, order: nat, isVisible: bool, createdAt: int)

  datatype Skill = Skill(
    id: nat, name: string, category: string, icon: string,
    yearsExperience: nat, proficiency: nat, order: nat, isVisible: bool)

  datatype TimelineEvent = TimelineEvent(
    id: nat, title: string, description: string, techStack: seq<string>,
    year: string, icon: string, color: string, order: nat, isVisible: bool)

  datatype SiteSettings = SiteSettings(
    pk: nat,
    siteName: string, tagline: string, heroTitle: string, heroSubtitle: string,
    aboutText: string, email: string, phone: string, location: string,
    githubUrl: string, linkedinUrl: string, twitterUrl: string,
    projectsCompleted: nat, sitesLive: nat, yearsExperience: nat, happyClients: nat)

  datatype ContactMessage = ContactMessage(
    id: nat, name: string, email: string, subject: string, message: string,
    createdAt: int, isRead: bool)

  // ---------------------------------------------------------------- ordering

  /** Project's Meta ordering: ascending order, newest first among equals. */
  predicate ByOrderThenNewest(a: Project, b: Project) {
    a.order < b.order || (a.order == b.order && a.createdAt >= b.createdAt)
  }

  /** order_by('order') over projects. */
  predicate ProjectByOrder(a: Project, b: Project) {
    a.order <= b.order
  }

  lemma ProjectOrdersArePreorders()
    ensures TotalPreorder(ByOrderThenNewest)
    ensures TotalPreorder(ProjectByOrder)
  {
  }

  // ------------------------------------------------------- tech_stack_list

  function StripEach(pieces: seq<string>): (r: seq<string>)
    ensures |r| == |pieces|
    ensures forall i :: 0 <= i < |r| ==> r[i] == Strip(pieces[i])
  {
    seq(|pieces|, i requires 0 <= i < |pieces| => Strip(pieces[i]))
  }

  /** Project.tech_stack_list: the stored list as it is, a string split on
      commas with every piece stripped, anything else as no technologies. */
  function TechStackList(t: TechStack): (r: seq<string>)
    ensures t.TechList? ==> r == t.items
    ensures t.TechOther? ==> r == []
    ensures t.TechText? ==> |r| == multiset(t.text)[','] + 1
    ensures t.TechText? ==> forall i :: 0 <= i < |r| ==> ',' !in r[i]
  {
    match t
    case TechList(items) => items
    case TechText(text) =>
      var pieces := Split(text, ',');
      var r := StripEach(pieces);
      assert forall i :: 0 <= i < |r| ==> ',' !in r[i] by {
        forall i | 0 <= i < |r| ensures ',' !in r[i] {
          var lo, hi :| TrimmedAt(pieces[i], lo, hi) && r[i] == pieces[i][lo..hi];
          assert forall k :: 0 <= k < |r[i]| ==> r[i][k] == pieces[i][lo + k];
        }
      }
      r
    case TechOther => []
  }

  /** A comma-separated tech string yields exactly its comma-free pieces, in
      order, each stripped: for any way of writing the text as pieces joined
      by commas. */
  lemma TechTextIsStrippedPieces(text: string, pieces: seq<string>)
    requires |pieces| >= 1
    requires forall i :: 0 <= i < |pieces| ==> ',' !in pieces[i]
    requires Join(pieces, ',') == text
    ensures TechStackList(TechText(text)) == StripEach(pieces)
  {
    SplitJoin(pieces, ',');
  }

  /** Every tech string has such a decomposition. */
  lemma TechTextHasPieces(text: string)
    ensures exists pieces :: |pieces| >= 1 && Join(pieces, ',') == text
                             && (forall i :: 0 <= i < |pieces| ==> ',' !in pieces[i])
                             && TechStackList(TechText(text)) == StripEach(pieces)
  {
    JoinSplit(text, ',');
    var pieces := Split(text, ',');
    assert Join(pieces, ',') == text;
  }

  // ------------------------------------------------------------------ slugs

  /** The n-th slug tried by Project.save: the base itself, then base-1, base-2, ... */
  function SlugCandidate(base: string, n: nat): string {
    if n == 0 then base else base + "-" + NatToString(n)
  }

  /** The candidates are pairwise distinct. */
  lemma SlugCandidatesDistinct(base: string, m: nat, n: nat)
    requires m != n
    ensures SlugCandidate(base, m) != SlugCandidate(base, n)
  {
    if m > 0 && n > 0 && SlugCandidate(base, m) == SlugCandidate(base, n) {
      var a, b := SlugCandidate(base, m), SlugCandidate(base, n);
      assert a[|base| + 1..] == NatToString(m);
      assert b[|base| + 1..] == NatToString(n);
      NatToStringInjective(m, n);
    }
  }

  /** The set of the first n candidates. */
  function CandidateSet(base: string, n: nat): (r: set<string>)
    ensures forall x :: x in r <==> exists j :: 0 <= j < n && x == SlugCandidate(base, j)
  {
    if n == 0 then {} else CandidateSet(base, n - 1) + {SlugCandidate(base, n - 1)}
  }

  /** Since the candidates are distinct, the first n of them are n slugs. */
  lemma {:induction false} CandidateSetSize(base: string, n: nat)
    ensures |CandidateSet(base, n)| == n
  {
    if n > 0 {
      CandidateSetSize(base, n - 1);
      if SlugCandidate(base, n - 1) in CandidateSet(base, n - 1) {
        var j :| 0 <= j < n - 1 && SlugCandidate(base, n - 1) == SlugCandidate(base, j);
        SlugCandidatesDistinct(base, j, n - 1);
      }
    }
  }

  /** Slugs of the stored projects other than the one with the given id:
      filter(slug=...).exclude(pk=id) finds exactly these. */
  function OtherSlugs(projects: seq<Project>, self: nat): set<string> {
    set p | p in projects && p.id != self :: p.slug
  }

  /** There are no more other slugs than stored projects. */
  lemma {:induction false} OtherSlugsBound(projects: seq<Project>, self: nat)
    ensures |OtherSlugs(projects, self)| <= |projects|
  {
    if projects != [] {
      var init := projects[..|projects| - 1];
      var last := projects[|projects| - 1];
      assert projects == init + [last];
      OtherSlugsBound(init, self);
      var a, b := OtherSlugs(projects, self), OtherSlugs(init, self) + {last.slug};
      assert a <= b;
      assert b == a + (b - a);
    }
  }

  /** n is the index of the first candidate not taken. */
  predicate FirstFree(base: string, taken: set<string>, n: nat) {
    SlugCandidate(base, n) !in taken && forall j :: 0 <= j < n ==> SlugCandidate(base, j) in taken
  }

  /** The first free candidate is determined by the base and the taken slugs. */
  lemma FirstFreeUnique(base: string, taken: set<string>, m: nat, n: nat)
    requires FirstFree(base, taken, m) && FirstFree(base, taken, n)
    ensures m == n
  {
  }

  /** If the first n candidates are all taken, at least n slugs are taken:
      the probe cannot run past the number of other projects. */
  lemma FirstFreeBound(base: string, taken: set<string>, n: nat)
    requires forall j :: 0 <= j < n ==> SlugCandidate(base, j) in taken
    ensures n <= |taken|
  {
    var c := CandidateSet(base, n);
    CandidateSetSize(base, n);
    assert c <= taken;
    assert taken == c + (taken - c);
  }

  /** Saving two projects titled alike: the second gets the suffix -1. */
  lemma SecondSlugHasSuffixOne(base: string)
    ensures FirstFree(base, {}, 0) && SlugCandidate(base, 0) == base
    ensures FirstFree(base, {base}, 1) && SlugCandidate(base, 1) == base + "-1"
  {
    SlugCandidatesDistinct(base, 0, 1);
    assert NatToString(1) == "1";
  }

  /** The result of Project.save. A clash with the unique slug column raises
      IntegrityError and stores nothing. */
  datatype SaveOutcome = Saved(project: Project) | IntegrityError

  /** Position of the row with the given id, or |projects| when there is none. */
  function IndexOfId(projects: seq<Project>, id: nat): nat {
    FirstIndex(projects, (p: Project) => p.id == id)
  }

  /** The table after writing p: the row with p's id replaced, or p appended. */
  function Upsert(projects: seq<Project>, p: Project): seq<Project> {
    var i := IndexOfId(projects, p.id);
    if i < |projects| then projects[i := p] else projects + [p]
  }

  /** Ids are assigned from 1, below the next id, and distinct; slugs are unique. */
  predicate ValidTable(projects: seq<Project>, nextId: nat) {
    && nextId >= 1
    && (forall i :: 0 <= i < |projects| ==> 1 <= projects[i].id < nextId)
    && (forall i, j :: 0 <= i < j < |projects| ==>
          projects[i].id != projects[j].id && projects[i].slug != projects[j].slug)
  }

  function Max(a: nat, b: nat): nat {
    if a < b then b else a
  }

  /** Writing a row whose slug no other row uses keeps ids and slugs unique,
      and afterwards still no other row uses that slug. */
  lemma UpsertKeepsValid(projects: seq<Project>, nextId: nat, q: Project)
    requires ValidTable(projects, nextId)
    requires q.id >= 1 && q.slug !in OtherSlugs(projects, q.id)
    ensures ValidTable(Upsert(projects, q), Max(nextId, q.id + 1))
    ensures q.slug !in OtherSlugs(Upsert(projects, q), q.id)
  {
    var i := IndexOfId(projects, q.id);
    var r := Upsert(projects, q);
    forall j | 0 <= j < |projects| && projects[j].id != q.id
      ensures projects[j].slug != q.slug
    {
      assert projects[j] in projects;
    }
    if i < |projects| {
      forall j | 0 <= j < |projects| && j != i ensures projects[j].id != q.id {
        if j < i {
          assert projects[j].id != projects[i].id;
        } else {
          assert projects[i].id != projects[j].id;
        }
      }
    }
    forall x | x in r && x.id != q.id ensures x.slug != q.slug {
      var j :| 0 <= j < |r| && r[j] == x;
      assert j < |projects| && r[j] == projects[j];
    }
  }

  /** The Project table. */
  class ProjectStore {
    var projects: seq<Project>
    var nextId: nat

    ghost predicate Valid()
      reads this
    {
      ValidTable(projects, nextId)
    }

    constructor ()
      ensures Valid() && projects == [] && nextId == 1
    {
      projects := [];
      nextId := 1;
    }

    /** The probe loop of Project.save: try base, base-1, base-2, ... until a
        slug no other project uses. n is the suffix of the slug chosen. */
    method ProbeSlug(base: string, self: nat) returns (slug: string, n: nat)
      ensures slug == SlugCandidate(base, n)
      ensures FirstFree(base, OtherSlugs(projects, self), n)
      ensures n <= |OtherSlugs(projects, self)| <= |projects|
    {
      OtherSlugsBound(projects, self);
      ghost var taken := OtherSlugs(projects, self);
      slug := base;
      var counter := 1;
      while slug in OtherSlugs(projects, self)
        invariant 1 <= counter
        invariant slug == SlugCandidate(base, counter - 1)
        invariant forall j :: 0 <= j < counter - 1 ==> SlugCandidate(base, j) in taken
        invariant counter - 1 <= |taken|
        decreases |taken| - (counter - 1)
      {
        FirstFreeBound(base, taken, counter);
        slug := base + "-" + NatToString(counter);
        counter := counter + 1;
      }
      n := counter - 1;
    }

    /** Project.save: derive a free slug when none is set, then insert the
        row (a new instance gets the next id) or overwrite the row with the
        same id. */
    method Save(p: Project, slugify: string -> string) returns (outcome: SaveOutcome)
      requires Valid()
      modifies this
      ensures Valid()
      ensures outcome.IntegrityError? <==> p.slug != "" && p.slug in OtherSlugs(old(projects), p.id)
      ensures outcome.IntegrityError? ==> projects == old(projects) && nextId == old(nextId)
      ensures outcome.Saved? ==>
        var q := outcome.project;
        && (p.slug != "" ==> q.slug == p.slug)
        && (p.slug == "" ==> exists n :: FirstFree(slugify(p.title), OtherSlugs(old(projects), p.id), n)
                                         && q.slug == SlugCandidate(slugify(p.title), n))
        && q == p.(id := q.id, slug := q.slug)
        && q.id == (if p.id == 0 then old(nextId) else p.id)
        && q.slug !in OtherSlugs(projects, q.id)
        && projects == Upsert(old(projects), q)
        && nextId == Max(old(nextId), q.id + 1)
    {
      var slug := p.slug;
      var n := 0;
      if slug == "" {
        slug, n := ProbeSlug(slugify(p.title), p.id);
      }
      if slug in OtherSlugs(projects, p.id) {
        return IntegrityError;
      }
      var id := if p.id == 0 then nextId else p.id;
      var q := p.(id := id, slug := slug);
      assert OtherSlugs(projects, q.id) <= OtherSlugs(projects, p.id);
      UpsertKeepsValid(projects, nextId, q);
      projects := Upsert(projects, q);
      nextId := Max(nextId, q.id + 1);
      outcome := Saved(q);
    }
  }

  // ------------------------------------------------------------ SiteSettings

  const SettingsPk: nat := 1

  /** A fresh SiteSettings row with the model's field defaults. */
  const DefaultSettings: SiteSettings := SiteSettings(
      SettingsPk,
      "Luigi Portfolio", "Web Developer", "Creo esperienze digitali",
      "Web Developer specializzato nella creazione di siti web moderni, performanti e user-friendly.",
      "", "", "", "", "", "", "",
      15, 10, 3, 12)

  /** get_or_create(pk=1) on the settings table: the row and the table after. */
  function GetOrCreate(rows: map<nat, SiteSettings>): (r: (SiteSettings, map<nat, SiteSettings>))
    ensures SettingsPk in r.1 && r.1[SettingsPk] == r.0
    ensures SettingsPk in rows ==> r.1 == rows
    ensures SettingsPk !in rows ==> r.0 == DefaultSettings && r.1 == rows[SettingsPk := r.0]
  {
    if SettingsPk in rows then (rows[SettingsPk], rows)
    else (DefaultSettings, rows[SettingsPk := DefaultSettings])
  }

  /** A second get_settings returns the same record and creates nothing. */
  lemma GetOrCreateIdempotent(rows: map<nat, SiteSettings>)
    ensures GetOrCreate(GetOrCreate(rows).1) == (GetOrCreate(rows).0, GetOrCreate(rows).1)
  {
  }

  /** On a table holding at most the singleton row, get_settings leaves
      exactly one row. */
  lemma GetOrCreateLeavesOneRow(rows: map<nat, SiteSettings>)
    requires rows.Keys <= {SettingsPk}
    ensures GetOrCreate(rows).1.Keys == {SettingsPk}
  {
  }

  /** The SiteSettings table. */
  class SettingsTable {
    var rows: map<nat, SiteSettings>

    /** At most one row, stored under pk 1 and carrying that pk. */
    ghost predicate Valid()
      reads this
    {
      rows.Keys <= {SettingsPk} && forall k :: k in rows ==> rows[k].pk == k
    }

    constructor ()
      ensures Valid() && rows == map[]
    {
      rows := map[];
    }

    /** SiteSettings.save: the primary key is forced to 1 before writing. */
    method Save(s: SiteSettings)
      requires Valid()
      modifies this
      ensures Valid()
      ensures rows == old(rows)[SettingsPk := s.(pk := SettingsPk)]
      ensures |rows| == 1
    {
      rows := rows[SettingsPk := s.(pk := SettingsPk)];
      assert rows.Keys == {SettingsPk};
    }

    /** SiteSettings.get_settings. */
    method GetSettings() returns (s: SiteSettings)
      requires Valid()
      modifies this
      ensures Valid()
      ensures (s, rows) == GetOrCreate(old(rows))
    {
      if SettingsPk in rows {
        s := rows[SettingsPk];
      } else {
        s := DefaultSettings;
        Save(s);
      }
    }
  }

  // ---------------------------------------------------------- ContactMessage

  /** The ContactMessage table. */
  class ContactInbox {
    var messages: seq<ContactMessage>
    var nextId: nat

    ghost predicate Valid()
      reads this
    {
      && nextId >= 1
      && (forall i :: 0 <= i < |messages| ==> 1 <= messages[i].id < nextId)
      && (forall i, j :: 0 <= i < j < |messages| ==> messages[i].id != messages[j].id)
    }

    constructor ()
      ensures Valid() && messages == [] && nextId == 1
    {
      messages := [];
      nextId := 1;
    }

    /** ContactMessage.objects.create: a new unread row stamped with now. */
    method Create(name: string, email: string, subject: string, message: string, now: int)
      returns (m: ContactMessage)
      requires Valid()
      modifies this
      ensures Valid()
      ensures m == ContactMessage(old(nextId), name, email, subject, message, now, false)
      ensures messages == old(messages) + [m]
      ensures nextId == old(nextId) + 1
    {
      m := ContactMessage(nextId, name, email, subject, message, now, false);
      messages := messages + [m];
      nextId := nextId + 1;
    }
  }
}
