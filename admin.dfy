/** The decisions the admin site takes: how a project's technologies are
    shown in the change list, the colour of a skill's proficiency bar, who
    may add or delete the settings singleton and contact messages, and
    marking a contact message read when it is opened. */
module Admin {
  import opened Ordering
  import opened Models

  // -------------------------------------------------------------- tech_tags

  const TagLimit: nat := 4

  /** The tech_tags cell: a dash, or the first tags with an optional "+N". */
  datatype TagCell = Dash | Tags(shown: seq<string>, overflow: Option<nat>)

  /** ProjectAdmin.tech_tags: the cell for a project, built from its
      normalised tech list. */
  function TechTags(p: Project): (r: TagCell)
    ensures var techs := TechStackList(p.techStack);
      && (r.Dash? <==> techs == [])
      && (r.Tags? ==> |r.shown| == (if |techs| < TagLimit then |techs| else TagLimit))
      && (r.Tags? ==> r.shown == techs[..|r.shown|])
      && (r.Tags? ==> (r.overflow.Some? <==> |techs| > TagLimit))
      && (r.Tags? && r.overflow.Some? ==> r.overflow.value == |techs| - TagLimit)
  {
    var techs := TechStackList(p.techStack);
    if techs == [] then Dash
    else
      var shown := if |techs| <= TagLimit then techs else techs[..TagLimit];
      Tags(shown, if |techs| > TagLimit then Some(|techs| - TagLimit) else None)
  }

  /** The cell loses nothing: the shown tags and the "+N" count account for
      every technology, and without a marker every technology is shown. */
  lemma TechTagsAccountsForAll(p: Project)
    requires TechStackList(p.techStack) != []
    ensures var cell := TechTags(p); var techs := TechStackList(p.techStack);
      && (cell.overflow.None? ==> cell.shown == techs)
      && (cell.overflow.Some? ==> |cell.shown| + cell.overflow.value == |techs| && cell.overflow.value >= 1)
  {
  }

  // -------------------------------------------------------- proficiency_bar

  /** SkillAdmin.proficiency_bar's colour: bright from 70, teal from 50, red below. */
  function ProficiencyColor(proficiency: nat): (color: string)
    ensures color == "#00d9ff" <==> proficiency >= 70
    ensures color == "#00b8cc" <==> 50 <= proficiency < 70
    ensures color == "#ff6b6b" <==> proficiency < 50
  {
    var color := if proficiency >= 70 then "#00d9ff" else "#00b8cc";
    if proficiency < 50 then "#ff6b6b" else color
  }

  /** Raising a proficiency never moves its bar to a lower band. */
  lemma ProficiencyColorMonotone(a: nat, b: nat)
    requires a <= b
    ensures ProficiencyColor(a) == "#00d9ff" ==> ProficiencyColor(b) == "#00d9ff"
    ensures ProficiencyColor(b) == "#ff6b6b" ==> ProficiencyColor(a) == "#ff6b6b"
  {
  }

  // ------------------------------------------------------------ permissions

  /** SiteSettingsAdmin.has_add_permission: only while no row exists. */
  function SettingsAddPermission(rows: map<nat, SiteSettings>): (allowed: bool)
    ensures allowed <==> rows == map[]
  {
    |rows| == 0
  }

  /** SiteSettingsAdmin.has_delete_permission: never. */
  function SettingsDeletePermission(rows: map<nat, SiteSettings>): (allowed: bool)
    ensures !allowed
  {
    false
  }

  /** Once any page has read the settings, the admin can no longer add a row. */
  lemma NoSecondSettings(rows: map<nat, SiteSettings>)
    ensures !SettingsAddPermission(GetOrCreate(rows).1)
  {
    assert SettingsPk in GetOrCreate(rows).1;
  }

  /** ContactMessageAdmin.has_add_permission: never. */
  function ContactAddPermission(): (allowed: bool)
    ensures !allowed
  {
    false
  }

  // ------------------------------------------------------------ change_view

  /** Position of the message with the given id, or |messages| when there is none. */
  function IndexOfMessage(messages: seq<ContactMessage>, id: nat): nat {
    FirstIndex(messages, (m: ContactMessage) => m.id == id)
  }

  /** The table after the read flag of the message with the given id was
      set to flag; a missing id changes nothing. */
  function SetRead(messages: seq<ContactMessage>, id: nat, flag: bool): seq<ContactMessage> {
    var i := IndexOfMessage(messages, id);
    if i < |messages| then messages[i := messages[i].(isRead := flag)] else messages
  }

  /** The table after the message with the given id was opened: that message
      is read; a missing id changes nothing. */
  function MarkRead(messages: seq<ContactMessage>, id: nat): seq<ContactMessage> {
    SetRead(messages, id, true)
  }

  /** Opening a message twice is the same as opening it once. */
  lemma MarkReadIdempotent(messages: seq<ContactMessage>, id: nat)
    ensures MarkRead(MarkRead(messages, id), id) == MarkRead(messages, id)
  {
    SetReadOverrides(messages, id, true, true);
  }

  /** Setting the flag of a message twice leaves the second value. */
  lemma SetReadOverrides(messages: seq<ContactMessage>, id: nat, first: bool, second: bool)
    ensures SetRead(SetRead(messages, id, first), id, second) == SetRead(messages, id, second)
  {
    var i := IndexOfMessage(messages, id);
    if i < |messages| {
      IndexOfMessageSameIds(messages, SetRead(messages, id, first), id);
    }
  }

  /** Positions of ids do not move when only flags change. */
  lemma IndexOfMessageSameIds(a: seq<ContactMessage>, b: seq<ContactMessage>, id: nat)
    requires |a| == |b| && forall i :: 0 <= i < |a| ==> a[i].id == b[i].id
    ensures IndexOfMessage(a, id) == IndexOfMessage(b, id)
  {
  }

  /** Setting a read flag alters only read flags, gives the flag to the
      message with that id (to every message with that id, there being one in
      a valid inbox), and leaves every other message as it was; name, email,
      subject, message and created_at are never altered. */
  lemma SetReadSpec(messages: seq<ContactMessage>, id: nat, flag: bool)
    requires forall i, j :: 0 <= i < j < |messages| ==> messages[i].id != messages[j].id
    ensures var r := SetRead(messages, id, flag);
      && |r| == |messages|
      && (forall i :: 0 <= i < |r| ==> r[i] == messages[i].(isRead := r[i].isRead))
      && (forall i :: 0 <= i < |r| && messages[i].id == id ==> r[i].isRead == flag)
      && (forall i :: 0 <= i < |r| && messages[i].id != id ==> r[i] == messages[i])
  {
    var k := IndexOfMessage(messages, id);
    forall i | 0 <= i < |messages| && messages[i].id == id ensures i == k {
      assert messages[k].id == id;
    }
  }

  /** Opening a message only sets its read flag and leaves every other
      message as it was. */
  lemma MarkReadSpec(messages: seq<ContactMessage>, id: nat)
    requires forall i, j :: 0 <= i < j < |messages| ==> messages[i].id != messages[j].id
    ensures var r := MarkRead(messages, id);
      && |r| == |messages|
      && (forall i :: 0 <= i < |r| ==> r[i] == messages[i].(isRead := r[i].isRead))
      && (forall i :: 0 <= i < |r| && messages[i].id == id ==> r[i].isRead)
      && (forall i :: 0 <= i < |r| && messages[i].id != id ==> r[i] == messages[i])
  {
    SetReadSpec(messages, id, true);
  }

  /** ContactMessageAdmin.change_view. The message is marked read and saved
      when it is opened; then the admin's own change_view runs. On a GET
      (submitted None) that only shows the change form. On a POST of the form
      (submitted Some(flag)) it saves the form, whose one editable field is
      is_read (every other field is read-only), so the message ends with the
      submitted flag. */
  method ChangeView(inbox: ContactInbox, id: nat, submitted: Option<bool>)
    requires inbox.Valid()
    modifies inbox
    ensures inbox.Valid()
    ensures submitted.None? ==> inbox.messages == MarkRead(old(inbox.messages), id)
    ensures submitted.Some? ==> inbox.messages == SetRead(old(inbox.messages), id, submitted.value)
    ensures inbox.nextId == old(inbox.nextId)
  {
    var i := IndexOfMessage(inbox.messages, id);
    if i < |inbox.messages| && !inbox.messages[i].isRead {
      inbox.messages := inbox.messages[i := inbox.messages[i].(isRead := true)];
    }
    if submitted.Some? {
      SetReadOverrides(old(inbox.messages), id, true, submitted.value);
      IndexOfMessageSameIds(old(inbox.messages), inbox.messages, id);
      i := IndexOfMessage(inbox.messages, id);
      if i < |inbox.messages| {
        inbox.messages := inbox.messages[i := inbox.messages[i].(isRead := submitted.value)];
      }
    }
  }
}
