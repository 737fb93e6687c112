# Portfolio site — a Dafny model

This project models the core of a Django portfolio site and its browser
script:

- **Content store (`Models`).** The site holds six kinds of record: projects,
  testimonials, skills, timeline events, the site-settings singleton and
  contact messages. The model covers:
  - how a project derives a unique slug when it is saved;
  - how its `tech_stack` JSON value is normalised into a list;
  - how the settings row is created on first read and always kept under
    primary key 1;
  - how contact messages are stored.
- **Contact form (`Forms`).** Each field is stripped and then checked: the
  name must be present and at most 100 characters, the email present and
  well formed, the subject at most 200 characters, and the message present
  and at least 10 characters; no field may hold a null character. A
  field gets every error its validators raise, so one field can get
  several. Validation yields either the cleaned values or the list of
  errors, grouped by field.
- **Views (`Views`):**
  - the home page: settings, featured project, visible projects and their
    tech filters, testimonials, skills grouped under their category
    heading, and timeline;
  - a project's detail page with up to three related projects;
  - the project listing, with category and technology filters and
    9-per-page pagination;
  - the contact submission endpoint;
  - the JSON project API, including the failure when a project's slug
    cannot be put into its detail URL.
- **Admin (`Admin`):**
  - the tech-tag cell (the first four tags and "+N");
  - the colour bands of the proficiency bar;
  - the add and delete permissions of the settings singleton and of
    contact messages;
  - marking a message read when it is opened.
- **Browser script (`Frontend`):**
  - the project filter buttons, which show and hide project cards;
  - the typing effect of the hero title, a state machine over the words of
    its `data-typing` attribute.

The supporting modules are:

- **`Text`:** the string built-ins these rely on, with Python's and
  JavaScript's semantics: `str.strip`, `str.split(',')`, substring tests,
  ASCII lower-casing, Python's string ordering and decimal formatting.
- **`Ordering`:**
  - queryset `filter`;
  - `order_by`, as a sort under a total preorder;
  - `[:n]`;
  - `sorted()` of a set of strings.

Database tables are sequences of rows, or a map for the settings singleton.
A table the source updates in place is a class whose methods modify it:

- `ProjectStore`;
- `SettingsTable`;
- `ContactInbox`;
- the DOM cards and buttons;
- the typing-effect closure.

## Model

| member | source | states |
|---|---|---|
| Text.Strip | portfolio/models.py:155 | the result is the input without its leading and trailing whitespace (Python's `isspace` set), and what remains neither starts nor ends with whitespace |
| Text.Split | portfolio/models.py:155 | splitting on a comma gives one more piece than there are commas, and no piece contains a comma |
| Text.JoinSplit | portfolio/models.py:155 | joining the pieces of a split with the separator gives back the original text |
| Text.SplitJoin | portfolio/models.py:155 | splitting a join of separator-free pieces gives back those pieces |
| Text.ContainsOccurs | static/js/main.js:287 | the substring scan succeeds exactly when the needle occurs at some position |
| Text.Lower | static/js/main.js:280 | lower-casing keeps the length, turns every ASCII capital into its small letter (32 code points on), keeps every other character, and leaves no capital |
| Text.LowerIdempotent | static/js/main.js:280 | lower-casing an already lower-cased text changes nothing |
| Text.NatToStringInjective | portfolio/models.py:142 | different counters give different slug suffixes |
| Text.ParseNatToString | portfolio/models.py:142 | reading back the decimal text of a counter gives the counter |
| Text.LessTotal | portfolio/views.py:58 | Python string order is total: two different strings always compare one way or the other |
| Text.LessTransitive | portfolio/views.py:58 | Python string order is transitive |
| Ordering.SortedList | portfolio/views.py:58 | `sorted(list(set))` holds every element of the set exactly once, in strictly ascending order |
| Ordering.SortSpec | portfolio/views.py:51 | `order_by` returns the same records, in ascending key order |
| Ordering.TakeSortedLowest | portfolio/views.py:105 | a `[:n]` slice of an ordered queryset is still ordered, and no record left out ranks below one kept |
| Models.ProjectOrdersArePreorders | portfolio/models.py:130 | both project orderings (order with newest first among ties, and order alone) compare every two projects and are transitive |
| Models.TechStackList | portfolio/models.py:149-156 | a stored list is returned as it is; any other non-string value gives no technologies; a string gives one piece per comma plus one, none containing a comma |
| Models.TechTextIsStrippedPieces | portfolio/models.py:154-155 | whenever the text is comma-free pieces joined by commas, the list is exactly those pieces, each stripped, in order |
| Models.TechTextHasPieces | portfolio/models.py:154-155 | every tech string has such a decomposition, so the previous row covers every string |
| Models.SlugCandidatesDistinct | portfolio/models.py:139-142 | the slugs tried (base, base-1, base-2, …) are pairwise distinct |
| Models.FirstFreeUnique | portfolio/models.py:141-143 | the slug the probe settles on is determined by the base and the slugs already taken |
| Models.FirstFreeBound | portfolio/models.py:141-143 | if the first n candidates are all taken, at least n slugs are taken, so the probe ends |
| Models.SecondSlugHasSuffixOne | portfolio/models.py:136-143 | the first project with a title gets the bare slug, and a second one with the same title gets base-1 |
| Models.UpsertKeepsValid | portfolio/models.py:35 | writing a row whose slug no other row has keeps ids distinct and slugs unique |
| Models.ProjectStore.ProbeSlug | portfolio/models.py:139-143 | returns the first candidate slug that no other project uses, after at most as many tries as there are other slugs (and so at most as many as there are projects) |
| Models.ProjectStore.Save | portfolio/models.py:135-144 | the effect of saving a project (details below the table) |
| Models.GetOrCreate | portfolio/models.py:422-426 | returns the row under pk 1 and leaves the table as it was when that row exists; otherwise it returns a row of field defaults and adds it under pk 1 |
| Models.GetOrCreateIdempotent | portfolio/models.py:422-426 | a second read of the settings returns the same record and creates nothing |
| Models.GetOrCreateLeavesOneRow | portfolio/models.py:417-426 | a table holding at most the singleton row holds exactly one row after a read |
| Models.SettingsTable.Save | portfolio/models.py:417-420 | the record is stored under pk 1 with its pk forced to 1, the table keeps at most that one row, and afterwards it has exactly one |
| Models.SettingsTable.GetSettings | portfolio/models.py:422-426 | the returned record and the new table are those of `GetOrCreate` on the old table |
| Models.ContactInbox.Create | portfolio/models.py:429-457 | appends exactly one message, unread, stamped with the given time and carrying the next id, and advances the id counter by one; ids stay distinct |
| Forms.CleanMessage | portfolio/forms.py:50-55 | refuses exactly the messages shorter than 10 characters (with the minimum-length error) and returns every other message unchanged |
| Forms.CleanAccepted | portfolio/forms.py:15-55 | a field cleans without error exactly when its stripped value meets the field's rules (including holding no null character), and its cleaned value is then the stripped text |
| Forms.CleanRaises | portfolio/forms.py:15-55 | a field's cleaning reports an error exactly when the field's rules raise it: "required" alone for an empty required field; otherwise every broken length limit, the email error and the null-character error together; the message's length error only once its field passed |
| Forms.ErrorsOfField | portfolio/forms.py:15-55 | a field has an entry in the form errors exactly when its cleaning raised that error |
| Forms.ErrorsRaised | portfolio/forms.py:15-55 | the form errors hold exactly the (field, error) pairs the rules raise |
| Forms.ValidateOkWhenAllClean | portfolio/forms.py:10-55 | the form is valid exactly when all four fields clean without error, and its cleaned data are their cleaned values |
| Forms.ValidateAccepts | portfolio/forms.py:10-55 | the form is valid exactly when every field meets its rules, and then yields the four stripped values |
| Forms.ValidateSpec | portfolio/forms.py:10-55 | the submission is valid exactly when all four fields meet their rules (details below the table) |
| Forms.ShortMessageRejected | portfolio/forms.py:41-55 | a message shorter than 10 characters after stripping makes the form invalid (details below the table) |
| Forms.LongNullNameGetsBothErrors | portfolio/forms.py:15-16 | a name over 100 characters that holds a null character gets both the length error and the null-character error |
| Forms.ErrorsInFieldOrder | portfolio/forms.py:15-48 | the errors are grouped by field, and the fields come in the order the form declares them |
| Views.VisibleProjects | portfolio/views.py:51 | the visible projects, and only those, each as often as stored, ordered by `order` and newest first among ties |
| Views.FeaturedProjectSpec | portfolio/views.py:45-48 | there is a featured project exactly when some visible project is featured, and it ranks first among them in the default order |
| Views.AllTechSpec | portfolio/views.py:54-57 | the collected set is exactly the technologies listed by some project |
| Views.CollectTechFilters | portfolio/views.py:53-58 | the tech filters hold each technology of the given projects exactly once, ascending |
| Views.AllTechSameMembers | portfolio/views.py:140-146 | the home page and the listing page collect the same technologies, although one walks the visible projects as ordered by `order_by` and the other in the model's default order (`portfolio/models.py:130`) |
| Views.SkillOrderIsPreorder | portfolio/views.py:64 | ordering skills by category and then order is a total preorder |
| Views.VisibleSkills | portfolio/views.py:64 | the visible skills, and only those, each as often as stored, ordered by category and then order |
| Views.HeadingsSpec | portfolio/views.py:65-70 | the group headings are the display labels of the skills' categories, each once |
| Views.GroupSkills | portfolio/views.py:65-70 | the grouping loop builds one group per heading, in order of first appearance, each holding that heading's skills in input order |
| Views.GroupsPartition | portfolio/views.py:65-70 | group headings are distinct; a skill is in a group exactly when its category shows as that heading; every skill has its group |
| Views.GroupsKeepOrder | portfolio/views.py:64-70 | within each group of the home page the skills stay in category-then-order order |
| Views.VisibleTestimonials | portfolio/views.py:61 | the visible testimonials, and only those, each as often as stored, by ascending order |
| Views.VisibleTimeline | portfolio/views.py:73 | the visible timeline events, and only those, each as often as stored, by ascending order |
| Views.RelatedProjectsSpec | portfolio/views.py:101-105 | the related projects of a detail page (details below the table) |
| Views.RelatedProjectsCounts | portfolio/views.py:101-105 | no project appears among the related ones more often than it is stored |
| Views.UniqueSlugMatches | portfolio/views.py:99 | with unique slugs, at most one project matches a slug lookup |
| Views.ProjectDetailSpec | portfolio/views.py:92-105 | with unique slugs the page is not found exactly when no visible project has the slug, the lookup never finds several, and a found page shows that project with its related projects |
| Views.ByCategory | portfolio/views.py:126-128 | with a non-empty category, keeps each project of that category as often as it occurs and drops the others; otherwise keeps everything |
| Views.ByTech | portfolio/views.py:130-133 | with a non-empty technology, keeps each project whose tech stack contains it as often as it occurs and drops the others; otherwise keeps everything |
| Views.ListingQuerySpec | portfolio/views.py:123-133 | the listing holds exactly the visible projects in the requested category that contain the requested technology (each filter only when given and non-empty), each as often as stored, ordered by order and then newest first |
| Views.NumPages | portfolio/views.py:136 | at least one page; just enough pages of 9 to hold every item |
| Views.PageIndex | portfolio/views.py:137-138 | a missing or non-integer page gives page 1; a page in range is kept; any other integer gives the last page |
| Views.Paginate | portfolio/views.py:135-138 | the page number is in range, and the page holds the consecutive slice of the listing that starts at the page's first position: exactly 9 items before the last page, and on the last page the rest of the listing |
| Views.PaginateLocates | portfolio/views.py:135-138 | item i is on page i / 9 + 1 at position i % 9, and every page before the last is full |
| Views.ProjectsList | portfolio/views.py:119-158 | the listing page's context (details below the table) |
| Views.DetailUrl | portfolio/urls.py:16 | reversing the detail route fails exactly when the slug does not match the slug converter (`[-a-zA-Z0-9_]+`, so also when it is empty); otherwise the URL is the route, then the slug, then a slash |
| Views.DetailUrlResolves | portfolio/models.py:146-147 | a project's URL resolves back to its slug |
| Views.ResolveDetailReverses | portfolio/urls.py:16 | every path the detail route resolves is the URL of the slug it yields |
| Views.ApiSelectionSorted | portfolio/views.py:232-242 | the API selection is ordered by order |
| Views.ApiSelectionCounts | portfolio/views.py:232-242 | the API selection holds each project the listing filters accept as often as it is stored, and no other |
| Views.ApiSelectionSpec | portfolio/views.py:232-242 | the API lists exactly the projects the listing page shows for the same filters, each as often, ordered by order alone |
| Views.ApiItems | portfolio/views.py:244-257 | the request fails exactly when some selected project's slug has no URL; otherwise one item per selected project, in the same order, each built from that project |
| Views.ApiProjects | portfolio/views.py:227-259 | fails (NoReverseMatch) exactly when some project of the API selection has a slug the converter refuses; otherwise the JSON list has one item per selected project, in order, with its normalised tech list and detail URL |
| Views.ContactSubmit | portfolio/views.py:161-213 | the contact endpoint's effect and reply (details below the table) |
| Views.Index | portfolio/views.py:26-89 | the home page's context (details below the table) |
| Views.HiddenProjectNeverShown | portfolio/views.py:45-242 | a hidden project is never the featured project, never on the home page or in a listing page, never related to another, and never in the API |
| Admin.TechTags | portfolio/admin.py:89-102 | for a project's normalised tech list of n entries: a dash exactly when there are no technologies; otherwise the first min(4, n) tags in order, with a "+k" marker exactly when n > 4, where k = n - 4 |
| Admin.TechTagsAccountsForAll | portfolio/admin.py:98-101 | the shown tags and the "+k" count together account for every technology |
| Admin.ProficiencyColor | portfolio/admin.py:171-173 | bright from 70, teal from 50 up to 69, red below 50; each colour exactly on its band |
| Admin.ProficiencyColorMonotone | portfolio/admin.py:171-173 | raising a proficiency never moves its bar to a lower band |
| Admin.SettingsAddPermission | portfolio/admin.py:243-245 | adding is allowed exactly when the settings table is empty |
| Admin.SettingsDeletePermission | portfolio/admin.py:247-249 | deleting settings is never allowed |
| Admin.NoSecondSettings | portfolio/admin.py:243-245 | once any page has read the settings, the admin can no longer add a row |
| Admin.ContactAddPermission | portfolio/admin.py:280-282 | adding a contact message by hand is never allowed |
| Admin.MarkReadIdempotent | portfolio/admin.py:284-290 | opening a message twice has the same effect as opening it once |
| Admin.MarkReadSpec | portfolio/admin.py:284-290 | opening a message only sets its read flag; all its other fields and all other messages stay as they were |
| Admin.SetReadSpec | portfolio/admin.py:267 | saving the change form writes only the read flag (every other field is read-only): the message with the id gets the submitted flag, and all other messages stay as they were |
| Admin.SetReadOverrides | portfolio/admin.py:284-290 | writing the read flag twice leaves the second value, so a saved form overrides the marking done on opening |
| Admin.ChangeView | portfolio/admin.py:284-290 | on opening the page (GET) the inbox becomes the old inbox with the message marked read; on saving the change form (POST) the message ends with the submitted read flag, whatever it was; an unknown id changes nothing, and the next id is untouched |
| Frontend.ShouldShowSpec | static/js/main.js:279-288 | a card is shown exactly when the filter is "all", or occurs in its category, or lower-cased occurs in its lower-cased tech; the empty filter shows every card |
| Frontend.TechMatchIgnoresCase | static/js/main.js:287 | two filters that differ only in letter case show the same cards by tech |
| Frontend.FilterProjects | static/js/main.js:275-296 | after filtering, every card's display is "" when it should show and "none" otherwise |
| Frontend.OnFilterClick | static/js/main.js:260-271 | after a click exactly the clicked button is active, and the cards are filtered by its filter |
| Frontend.Prefix | static/js/main.js:493-496 | `substring(0, end)` is the prefix of the clamped length |
| Frontend.StepInRange | static/js/main.js:489-509 | with non-empty words a tick keeps the state in range, and the text shown is the current word cut at the new character index |
| Frontend.RunInRange | static/js/main.js:484-514 | with non-empty words every state reached from the start is in range |
| Frontend.StepDelays | static/js/main.js:500-509 | the delay and state switch of each tick (details below the table) |
| Frontend.WordCycle | static/js/main.js:489-512 | a non-empty word is typed and deleted in twice its length in ticks, after which the next word (cyclically) starts from nothing |
| Frontend.EmptyWordNeverFinishes | static/js/main.js:484-502 | an empty word (from ",," or a trailing comma) is never finished: the character index only grows and the effect stays on that word |
| Frontend.TypingEffect.constructor | static/js/main.js:484-487 | the words are the attribute split on commas, typing starts at the first character of the first word, and the element keeps the text it had |
| Frontend.StartTyping | static/js/main.js:480-514 | `init` sets up the closure and runs `type()` once: the state, the text shown and the first delay are those of one `Step` from the start |
| Frontend.TypingEffect.Type | static/js/main.js:489-512 | one run of `type()`: the new closure state, the text shown and the delay are those of one `Step` on the old state |

Details behind some rows of the table:

- **Models.ProjectStore.Save.** A slug that another row already uses makes the save fail as an integrity error, and the table stays unchanged. Otherwise:
  - a set slug is kept;
  - an empty slug becomes the first free slug derived from the title;
  - a new project gets the next id, and the id counter moves past the saved id;
  - the row is inserted or overwritten;
  - slugs stay unique.
- **Forms.ValidateSpec.**
  - A valid submission gives the four stripped values.
  - An invalid one gives exactly the (field, error) pairs the rules raise, as `Forms.CleanRaises` lists them.
- **Forms.ShortMessageRejected.** The error is on the message field: "required" when nothing is left, the null-character error when the message holds one, the length error otherwise.
- **Views.RelatedProjectsSpec.** The detail page shows at most 3 projects. Each is visible, of the same category, and not the project itself, and none appears more often than it is stored. They come by ascending order, as many as there are up to 3. None left out has a lower order.
- **Views.ProjectsList.**
  - The settings are read (and created when missing).
  - The page is the requested page of the listing query.
  - The tech filters are strictly ascending and hold exactly the technologies of all visible projects, whatever the filters.
  - The current filters are echoed back.
- **Views.ContactSubmit.**
  - A valid submission stores exactly one new unread message with the cleaned fields, advances the id counter by one, and replies success with status 200 and the thank-you text, whatever became of the notification mail.
  - An invalid one stores nothing, leaves the id counter, and replies failure with status 400 and the form errors.
- **Views.Index.** The context holds:
  - the settings, read and created when missing;
  - the featured project;
  - the visible projects;
  - the sorted tech filters of the visible projects;
  - the visible testimonials;
  - the skills grouped by heading;
  - the visible timeline.
- **Frontend.StepDelays.**
  - Finishing a word switches to deleting after 2000 ms.
  - Emptying it moves to the next word, cyclically, after 500 ms.
  - Any other tick waits 100 ms while typing and 50 ms while deleting.

## Left out

- Rendering, templates, `JsonResponse` serialisation and HTTP plumbing: the views return the data of their context or reply, not HTML or JSON text.
- Views.ContactSubmit: the notification mail is not modelled. `send_mail` runs with `fail_silently=True` inside a `try` that swallows every exception, so it cannot affect the reply or the stored message; its outcome is the unused `mailFailed` parameter.
- `slugify` is a parameter of `Models.ProjectStore.Save`, and email syntax (Django's `EmailValidator`) is the `isEmail` parameter of the form; neither is modelled character by character.
- Forms.ValidateSpec: the form's own error messages (texts) are left out; errors are codes. Recent Django versions also give `EmailField` a default `max_length` of 320; the Django version is not pinned, so that limit is not modelled.
- Views.DetailUrl: the slug converter is modelled on ASCII letters, digits, `-` and `_`, as its pattern reads; the URL's percent-encoding of other characters does not arise because such slugs are refused.
- Models.ProjectStore.Save: `get_or_create`, `save` and the unique-slug clash are modelled as single atomic steps. Concurrent saves and database transactions are not modelled.
- Rows are ordered by a stable insertion sort, so ties keep the input order. The database may return tied rows in any order; the model fixes that one order. Strings compare by code point (Python's order), not by a database collation.
- Models.TechStackList: a stored JSON list is assumed to hold only strings. The column accepts any JSON value, and `tech_stack_list` returns any list unchanged, but the model cannot represent other items. So it leaves out these failures: in `Views.Index` and `Views.ProjectsList`, an item that is a nested list or an object makes `all_tech.add` raise TypeError, and a list mixing strings with numbers (`["Python", 3]`) makes `sorted` raise TypeError; either error fails the page. It also leaves out `jsonb` containment matching a string inside such a mixed list.
- Views.TechContains: `tech_stack__contains` follows PostgreSQL `jsonb` containment (a list contains its elements; a string contains only itself). On SQLite the lookup is unsupported for JSON fields and is not modelled.
- Views.PageIndex: the page parameter arrives already classified as absent, non-integer or an integer. Parsing the query-string text with `int()` is not modelled.
- The `SiteSettings` read in `project_detail` (`portfolio/views.py:108`) only feeds the template: `ProjectDetail` models the page as a pure function, so the singleton's creation on first read is shown by `ProjectsList` and `Index` instead.
- The unbound `ContactForm()` placed in the home page context carries no data and is left out.
- Project thumbnails are the URL string of the image (`image_thumbnail.url`, or "" when unset). File storage, `MEDIA_URL` and image fields in general are not modelled.
- Timestamps are integers supplied by the caller (`now`). `updated_at`, the `gallery`, `hero_image` and `related_projects` fields, and field length limits on the models (as opposed to the form) are not modelled.
- An id of 0 stands for an unsaved instance (`pk` None).
- The skills query follows the view's `order_by('category', 'order')`, which replaces the model's default ordering (`portfolio/models.py:265`) that also sorts by name.
- Views.ThankYou keeps the characters that the view source holds ("risponder" followed by U+221A and U+2264): a mis-encoded "ò".
- Admin list columns, widths, HTML of the tags and bars, list filters, search fields and the read-status icon are presentation only. `ContactMessageAdmin`'s read-only fields are reflected in `Admin.SetReadSpec` and `Admin.MarkReadSpec`, which show that opening a message or saving its change form changes nothing but its read flag. The change form's permission checks, messages and redirects are not modelled.
- The admin list orderings (`-created_at` for messages and others) are presentation order and are not modelled.
- Text.Lower: `toLowerCase` is modelled for ASCII letters only. Full Unicode case mapping is not modelled.
- JavaScript strings count UTF-16 code units; the model counts characters.
- A missing `data-filter` attribute (`undefined`) is not modelled; filters are strings.
- The fade-in animation, its per-card delay and `setTimeout` scheduling are left out. The typing effect is modelled as the sequence of ticks with the delay each one asks for.
- `ProjectFilter.init`'s guard, event wiring and `preventDefault` are left out.
- The rest of `static/js/main.js` (navigation, slider, lazy loading, the contact form's fetch call and the other visual effects) is not part of this model.
- The URL configuration, sitemaps, context processors, settings and server configuration are not part of this model. The detail route `/project/<slug>/` is taken as mounted at the site root.
- Frontend.StepInRange and Frontend.RunInRange assume every word is non-empty; the behaviour with an empty word is stated separately by `Frontend.EmptyWordNeverFinishes`.
