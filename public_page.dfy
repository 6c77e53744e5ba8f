/**
 * The public registration page (Assets/Scripts/public-script.js): loading the active event and
 * choosing what to show, and the submit handler that turns the filled form into a registration
 * document in the event's own collection and a confirmation mail in its outbox collection.
 */
module PublicPage {
  import opened Wrappers
  import opened Text
  import opened Store
  import opened RegistrationForm

  // ---------------------------------------------------------------------------------------------
  // Loading the page
  // ---------------------------------------------------------------------------------------------

  /** What the page ends up showing. */
  datatype PageView =
    | NoActiveEvent
    | LoadFailed
    | RegistrationClosed(event: Event)
    | RegistrationOpen(event: Event, form: Form)

  /** The view of an active event: the form only while its status is exactly `open`. */
  function ViewOf(e: Event): PageView {
    if e.status == "open" then RegistrationOpen(e, RegistrationFormOf(e)) else RegistrationClosed(e)
  }

  /**
   * `loadActiveEvent`: query one active event; show the no-event message when there is none,
   * the error message when the query fails (`reachable` false), otherwise the event and either
   * its form or the closed notice.
   */
  method LoadActiveEvent(db: Database, reachable: bool) returns (view: PageView)
    ensures !reachable ==> view == LoadFailed
    ensures reachable ==> (view == NoActiveEvent <==> ActiveIds(db.events) == {})
    ensures reachable ==> view != LoadFailed
    ensures view.RegistrationClosed? || view.RegistrationOpen? ==>
      (exists id :: id in ActiveIds(db.events) && db.events[id] == view.event)
    ensures view.RegistrationClosed? || view.RegistrationOpen? ==> view == ViewOf(view.event)
  {
    if !reachable {
      return LoadFailed;
    }
    var found := db.QueryActive();
    if found.None? {
      view := NoActiveEvent;
    } else {
      var e := db.events[found.value];
      assert found.value in ActiveIds(db.events);
      OpenViewShowsForm(e);
      if e.status == "open" {
        var form := GenerateRegistrationForm(e);
        view := RegistrationOpen(e, form);
      } else {
        view := RegistrationClosed(e);
      }
    }
  }

  /** The page offers a form exactly for an `open` event, and that form is the event's registration form. */
  lemma OpenViewShowsForm(e: Event)
    ensures ViewOf(e).RegistrationOpen? <==> e.status == "open"
    ensures ViewOf(e).event == e
    ensures ViewOf(e).RegistrationOpen? ==> ViewOf(e).form == RegistrationFormOf(e)
  {
  }

  // ---------------------------------------------------------------------------------------------
  // The registration document
  // ---------------------------------------------------------------------------------------------

  /** One `[key, value]` pair of the submitted `FormData`, in document order. */
  datatype FormEntry = FormEntry(key: string, value: string)

  /** `registrationData[key] = value` for every entry in order: a repeated key keeps its last value. */
  function FormDataMap(entries: seq<FormEntry>): (m: map<string, Value>)
    ensures forall key :: key in m <==> exists k :: 0 <= k < |entries| && entries[k].key == key
    ensures forall key :: key in m ==> m[key].Text?
  {
    if entries == [] then map[]
    else
      var last := entries[|entries| - 1];
      var m' := FormDataMap(entries[..|entries| - 1]);
      assert forall k :: 0 <= k < |entries| - 1 ==> entries[..|entries| - 1][k] == entries[k];
      m'[last.key := Text(last.value)]
  }

  /** An entry whose key does not occur later decides that key's value. */
  lemma {:induction false} FormDataMapLastWins(entries: seq<FormEntry>, k: nat)
    requires k < |entries|
    requires forall j :: k < j < |entries| ==> entries[j].key != entries[k].key
    ensures FormDataMap(entries)[entries[k].key] == Text(entries[k].value)
  {
    if k < |entries| - 1 {
      var init := entries[..|entries| - 1];
      assert init[k] == entries[k];
      forall j | k < j < |init|
        ensures init[j].key != init[k].key
      {
        assert init[j] == entries[j];
      }
      FormDataMapLastWins(init, k);
    }
  }

  /** The copy loop of the submit handler. */
  method CopyEntries(entries: seq<FormEntry>) returns (data: map<string, Value>)
    ensures data == FormDataMap(entries)
  {
    data := map[];
    for i := 0 to |entries|
      invariant data == FormDataMap(entries[..i])
    {
      assert entries[..i + 1][..i] == entries[..i];
      data := data[entries[i].key := Text(entries[i].value)];
    }
    assert entries[..|entries|] == entries;
  }

  /**
   * The persisted document: every form entry, then `timeStamp` (the server time) and
   * `participantCount` (from the event as fetched at submit time), which override any entry
   * of the same name.
   */
  function RegistrationDocument(entries: seq<FormEntry>, e: Event, now: nat): (doc: map<string, Value>)
    ensures doc.Keys == FormDataMap(entries).Keys + {"timeStamp", "participantCount"}
    ensures doc["timeStamp"] == ServerTime(now)
    ensures doc["participantCount"] == Number(ParticipantCount(e))
    ensures forall key :: key in FormDataMap(entries) && key != "timeStamp" && key != "participantCount" ==>
      doc[key] == FormDataMap(entries)[key]
  {
    FormDataMap(entries)["timeStamp" := ServerTime(now)]["participantCount" := Number(ParticipantCount(e))]
  }

  /** No participant field is named like the two fields the handler adds. */
  lemma ParticipantNamesAreNotReserved(i: nat, suffix: string)
    ensures ParticipantFieldName(i, suffix) != "timeStamp"
    ensures ParticipantFieldName(i, suffix) != "participantCount"
  {
    var name := ParticipantFieldName(i, suffix);
    assert name[0] == 'p' && name[1] == NatToString(i)[0];
    assert IsDigit(name[1]);
  }

  // ---------------------------------------------------------------------------------------------
  // Collection names
  // ---------------------------------------------------------------------------------------------

  /** `${eventName.replace(/\s+/g, '')}Teams` for a team event, `…Participants` otherwise. */
  function RegistrationCollection(e: Event): string {
    ReplaceWhitespaceRuns(e.eventName, "") + (if e.participationType == "team" then "Teams" else "Participants")
  }

  /** `${eventName.replace(/\s+/g, '')}Mails`. */
  function MailCollection(e: Event): string {
    ReplaceWhitespaceRuns(e.eventName, "") + "Mails"
  }

  /** Both names are the event name with every whitespace character removed, plus a fixed suffix. */
  lemma CollectionNamesStripWhitespace(e: Event)
    ensures RegistrationCollection(e)
         == RemoveWhitespace(e.eventName) + (if e.participationType == "team" then "Teams" else "Participants")
    ensures MailCollection(e) == RemoveWhitespace(e.eventName) + "Mails"
    ensures NoWhitespace(RemoveWhitespace(e.eventName))
  {
    ReplaceRunsByNothingRemovesWhitespace(e.eventName);
  }

  /** Events whose names differ only in whitespace share their collections. */
  lemma SameStrippedNameSameCollections(e1: Event, e2: Event)
    requires RemoveWhitespace(e1.eventName) == RemoveWhitespace(e2.eventName)
    requires (e1.participationType == "team") == (e2.participationType == "team")
    ensures RegistrationCollection(e1) == RegistrationCollection(e2)
    ensures MailCollection(e1) == MailCollection(e2)
  {
    CollectionNamesStripWhitespace(e1);
    CollectionNamesStripWhitespace(e2);
  }

  /** No event's registrations ever land in any event's mail outbox, its own included. */
  lemma RegistrationsNeverInMailCollection(e1: Event, e2: Event)
    ensures RegistrationCollection(e1) != MailCollection(e2)
  {
    var r, m := RegistrationCollection(e1), MailCollection(e2);
    assert m[|m| - 5] == 'M';
    if e1.participationType == "team" {
      assert r[|r| - 5] == 'T';
    } else {
      assert r[|r| - 5] == 'p';
    }
  }

  // ---------------------------------------------------------------------------------------------
  // The confirmation mail
  // ---------------------------------------------------------------------------------------------

  /** `registrationData[key]` as a string, or `undefined` when the form had no such field. */
  function FieldText(doc: map<string, Value>, key: string): Option<string> {
    if key in doc && doc[key].Text? then Some(doc[key].text) else None
  }

  /** `[registrationData[`p1_${suffix}`], …, registrationData[`pN_${suffix}`]]`. */
  function ParticipantValues(doc: map<string, Value>, count: nat, suffix: string): (vs: seq<Option<string>>)
    ensures |vs| == count
  {
    seq(count, k requires 0 <= k < count => FieldText(doc, ParticipantFieldName(k + 1, suffix)))
  }

  /** The loop pushing each participant's email and name, for i = 1 to N. */
  method GatherParticipants(doc: map<string, Value>, count: nat) returns (emails: seq<Option<string>>, names: seq<Option<string>>)
    ensures emails == ParticipantValues(doc, count, "email")
    ensures names == ParticipantValues(doc, count, "name")
  {
    emails, names := [], [];
    for i := 1 to count + 1
      invariant |emails| == |names| == i - 1
      invariant forall k :: 0 <= k < i - 1 ==> emails[k] == FieldText(doc, ParticipantFieldName(k + 1, "email"))
      invariant forall k :: 0 <= k < i - 1 ==> names[k] == FieldText(doc, ParticipantFieldName(k + 1, "name"))
    {
      emails := emails + [FieldText(doc, ParticipantFieldName(i, "email"))];
      names := names + [FieldText(doc, ParticipantFieldName(i, "name"))];
    }
  }

  /** How `Array.prototype.join` renders an element: `undefined` as the empty string. */
  function NameText(n: Option<string>): string {
    if n.Some? then n.value else ""
  }

  /** `names.join(' & ')`. */
  function JoinedNames(names: seq<Option<string>>): string {
    Join(seq(|names|, k requires 0 <= k < |names| => NameText(names[k])), " & ")
  }

  /** Every `{name}` of the template becomes the joined names; then every `{eventName}` becomes the event name. */
  function MailBody(template: string, joined: string, eventName: string): string {
    ReplaceAll(ReplaceAll(template, "{name}", joined), "{eventName}", eventName)
  }

  /** The outbox record for a registration document of event `e`. */
  function MailFor(e: Event, doc: map<string, Value>): MailRecord {
    var count := ParticipantCount(e);
    MailRecord(
      ParticipantValues(doc, count, "email"),
      "Registration Confirmed | " + e.eventName,
      MailBody(e.emailTemplate, JoinedNames(ParticipantValues(doc, count, "name")), e.eventName))
  }

  /** The recipients are the participants' email values, in index order, one per block. */
  lemma MailRecipients(e: Event, doc: map<string, Value>)
    ensures MailFor(e, doc).to == ParticipantValues(doc, ParticipantCount(e), "email")
    ensures |MailFor(e, doc).to| == ParticipantCount(e)
  {
  }

  /** The mail goes to one address per participant block, taken from that block's email field in index order. */
  lemma {:induction false} RecipientFromEntry(entries: seq<FormEntry>, e: Event, now: nat, i: nat, j: nat)
    requires 1 <= i <= ParticipantCount(e)
    requires j < |entries| && entries[j].key == ParticipantFieldName(i, "email")
    requires forall l :: j < l < |entries| ==> entries[l].key != entries[j].key
    ensures |MailFor(e, RegistrationDocument(entries, e, now)).to| == ParticipantCount(e)
    ensures MailFor(e, RegistrationDocument(entries, e, now)).to[i - 1] == Some(entries[j].value)
  {
    var doc := RegistrationDocument(entries, e, now);
    MailRecipients(e, doc);
    var key := ParticipantFieldName(i, "email");
    ParticipantEntryInDocument(entries, e, now, i, "email", j);
    assert FieldText(doc, key) == Some(entries[j].value);
    assert ParticipantValues(doc, ParticipantCount(e), "email")[i - 1] == FieldText(doc, key);
  }

  /** The document keeps the last value entered for a participant field. */
  lemma ParticipantEntryInDocument(entries: seq<FormEntry>, e: Event, now: nat, i: nat, suffix: string, j: nat)
    requires j < |entries| && entries[j].key == ParticipantFieldName(i, suffix)
    requires forall l :: j < l < |entries| ==> entries[l].key != entries[j].key
    ensures ParticipantFieldName(i, suffix) in RegistrationDocument(entries, e, now)
    ensures RegistrationDocument(entries, e, now)[ParticipantFieldName(i, suffix)] == Text(entries[j].value)
  {
    var key := ParticipantFieldName(i, suffix);
    var m := FormDataMap(entries);
    FormDataMapLastWins(entries, j);
    assert key in m && m[key] == Text(entries[j].value);
    ParticipantNamesAreNotReserved(i, suffix);
  }

  /** A participant whose email field is missing from the form gets an `undefined` recipient. */
  lemma MissingEmailIsUndefined(entries: seq<FormEntry>, e: Event, now: nat, i: nat)
    requires 1 <= i <= ParticipantCount(e)
    requires forall l :: 0 <= l < |entries| ==> entries[l].key != ParticipantFieldName(i, "email")
    ensures MailFor(e, RegistrationDocument(entries, e, now)).to[i - 1] == None
  {
    RecipientDefinedIffEmailEntry(entries, e, now, i);
  }

  /** The subject names the event, and a single participant's name replaces `{name}` unchanged. */
  lemma SingleNameJoined(name: string)
    ensures JoinedNames([Some(name)]) == name
    ensures JoinedNames([None]) == ""
  {
    assert seq(1, k requires 0 <= k < 1 => NameText([Some(name)][k])) == [name];
    assert seq(1, k requires 0 <= k < 1 => NameText([None][k])) == [""];
  }

  /** Two or more names are separated by ` & `, in index order. */
  lemma JoinedNamesAppend(names: seq<Option<string>>, n: Option<string>)
    requires names != []
    ensures JoinedNames(names + [n]) == JoinedNames(names) + " & " + NameText(n)
  {
    var parts := seq(|names|, k requires 0 <= k < |names| => NameText(names[k]));
    assert seq(|names + [n]|, k requires 0 <= k < |names + [n]| => NameText((names + [n])[k])) == parts + [NameText(n)];
    JoinAppend(parts, NameText(n), " & ");
  }

  /** A template without placeholders is sent as written. */
  lemma MailBodyWithoutPlaceholders(template: string, joined: string, eventName: string)
    requires forall i :: !OccursAt(template, "{name}", i)
    requires forall i :: !OccursAt(template, "{eventName}", i)
    ensures MailBody(template, joined, eventName) == template
  {
    ReplaceAllWithoutOccurrence(template, "{name}", joined);
    ReplaceAllWithoutOccurrence(template, "{eventName}", eventName);
  }

  /**
   * The replacements are sequential, `{name}` first: a template that is just `{name}` sends the
   * joined names with any `{eventName}` inside them expanded too.
   */
  lemma NamesExpandedBeforeEventName(joined: string, eventName: string)
    ensures MailBody("{name}", joined, eventName) == ReplaceAll(joined, "{eventName}", eventName)
  {
    var pat := "{name}";
    assert pat[..|pat|] == pat && pat[|pat|..] == [];
    assert ReplaceAll(pat[|pat|..], pat, joined) == [];
    assert ReplaceAll(pat, pat, joined) == joined + [] == joined;
  }

  // ---------------------------------------------------------------------------------------------
  // Submitting
  // ---------------------------------------------------------------------------------------------

  datatype SubmitOutcome = EventNoLongerActive | RegistrationFailed | MailFailed | Registered

  /** The mail record a submit tries to store: refused by the store when a recipient is `undefined`. */
  function MailDocument(e: Event, entries: seq<FormEntry>, now: nat): Document {
    Mail(MailFor(e, RegistrationDocument(entries, e, now)))
  }

  /**
   * The collections after a submit for active event `e`: the registration document is added to
   * the event's collection when that write is accepted, and only then is the mail record added
   * to its outbox, when that write is accepted and the record is storable.
   */
  function AfterSubmit(collections: map<string, seq<Document>>, e: Event, entries: seq<FormEntry>, now: nat,
                       registrationAccepted: bool, mailAccepted: bool): map<string, seq<Document>>
  {
    var doc := RegistrationDocument(entries, e, now);
    var r, m := RegistrationCollection(e), MailCollection(e);
    var afterRegistration := if registrationAccepted then collections[r := Documents(collections, r) + [Registration(doc)]]
                             else collections;
    if registrationAccepted && mailAccepted && Storable(MailDocument(e, entries, now))
    then afterRegistration[m := Documents(afterRegistration, m) + [MailDocument(e, entries, now)]]
    else afterRegistration
  }

  /**
   * A submit appends at most one registration to the event's collection and at most one mail to
   * its outbox, the mail only when the registration was written and every recipient is defined,
   * and touches no other collection.
   */
  lemma SubmitWrites(collections: map<string, seq<Document>>, e: Event, entries: seq<FormEntry>, now: nat,
                     registrationAccepted: bool, mailAccepted: bool)
    ensures var after := AfterSubmit(collections, e, entries, now, registrationAccepted, mailAccepted);
      && Documents(after, RegistrationCollection(e))
         == Documents(collections, RegistrationCollection(e))
            + (if registrationAccepted then [Registration(RegistrationDocument(entries, e, now))] else [])
      && Documents(after, MailCollection(e))
         == Documents(collections, MailCollection(e))
            + (if registrationAccepted && mailAccepted && Storable(MailDocument(e, entries, now))
               then [MailDocument(e, entries, now)] else [])
      && forall name :: name != RegistrationCollection(e) && name != MailCollection(e) ==>
           (name in after <==> name in collections) && Documents(after, name) == Documents(collections, name)
  {
    RegistrationsNeverInMailCollection(e, e);
  }

  /**
   * The mail can be stored exactly when every participant block's email field was submitted:
   * one missing email makes the outbox write fail after the registration has been written.
   */
  lemma MailStorableIffAllEmails(entries: seq<FormEntry>, e: Event, now: nat)
    ensures Storable(MailDocument(e, entries, now)) <==>
      forall i :: 1 <= i <= ParticipantCount(e) ==>
        exists j :: 0 <= j < |entries| && entries[j].key == ParticipantFieldName(i, "email")
  {
    var to := MailFor(e, RegistrationDocument(entries, e, now)).to;
    if Storable(MailDocument(e, entries, now)) {
      forall i | 1 <= i <= ParticipantCount(e)
        ensures exists j :: 0 <= j < |entries| && entries[j].key == ParticipantFieldName(i, "email")
      {
        RecipientDefinedIffEmailEntry(entries, e, now, i);
      }
    } else {
      var k :| 0 <= k < |to| && !to[k].Some?;
      RecipientDefinedIffEmailEntry(entries, e, now, k + 1);
    }
  }

  /** Recipient i is defined exactly when the form had an entry for participant i's email field. */
  lemma RecipientDefinedIffEmailEntry(entries: seq<FormEntry>, e: Event, now: nat, i: nat)
    requires 1 <= i <= ParticipantCount(e)
    ensures MailFor(e, RegistrationDocument(entries, e, now)).to[i - 1].Some? <==>
      exists j :: 0 <= j < |entries| && entries[j].key == ParticipantFieldName(i, "email")
  {
    var key := ParticipantFieldName(i, "email");
    var doc := RegistrationDocument(entries, e, now);
    MailRecipients(e, doc);
    assert ParticipantValues(doc, ParticipantCount(e), "email")[i - 1] == FieldText(doc, key);
    ParticipantNamesAreNotReserved(i, "email");
    assert key in doc <==> key in FormDataMap(entries);
  }

  /**
   * The submit handler. It re-queries the active event and writes nothing when there is none;
   * it does not look at the event's `status`, so a submit reaching an active but closed event
   * still registers. `chosen` names the event the query returned.
   */
  method Submit(db: Database, entries: seq<FormEntry>, now: nat, registrationAccepted: bool, mailAccepted: bool)
    returns (outcome: SubmitOutcome, ghost chosen: EventId)
    requires db.Valid()
    modifies db
    ensures db.Valid()
    ensures db.events == old(db.events) && db.nextEventId == old(db.nextEventId) && db.pastEvents == old(db.pastEvents)
    ensures outcome == EventNoLongerActive <==> ActiveIds(old(db.events)) == {}
    ensures outcome == EventNoLongerActive ==> db.collections == old(db.collections)
    ensures outcome != EventNoLongerActive ==>
      && chosen in ActiveIds(old(db.events))
      && db.collections == AfterSubmit(old(db.collections), old(db.events)[chosen], entries, now,
                                       registrationAccepted, mailAccepted)
      && outcome == (if !registrationAccepted then RegistrationFailed
                     else if !mailAccepted || !Storable(MailDocument(old(db.events)[chosen], entries, now)) then MailFailed
                     else Registered)
  {
    var found := db.QueryActive();
    if found.None? {
      return EventNoLongerActive, 0;
    }
    chosen := found.value;
    var e := db.events[found.value];
    assert chosen in ActiveIds(db.events);
    var data := CopyEntries(entries);
    data := data["timeStamp" := ServerTime(now)];
    var count := if e.participationType == "team" then e.teamSize else 1;
    data := data["participantCount" := Number(count)];
    var collectionName := ReplaceWhitespaceRuns(e.eventName, "") + (if e.participationType == "team" then "Teams" else "Participants");
    var mailCollectionName := ReplaceWhitespaceRuns(e.eventName, "") + "Mails";
    var registered := db.AddDocument(collectionName, Registration(data), registrationAccepted);
    if !registered {
      return RegistrationFailed, chosen;
    }
    var emails, names := GatherParticipants(data, count);
    var subject := "Registration Confirmed | " + e.eventName;
    var body := ReplaceAll(ReplaceAll(e.emailTemplate, "{name}", JoinedNames(names)), "{eventName}", e.eventName);
    assert data == RegistrationDocument(entries, e, now);
    assert collectionName == RegistrationCollection(e) && mailCollectionName == MailCollection(e);
    assert MailRecord(emails, subject, body) == MailFor(e, data);
    var mailed := db.AddDocument(mailCollectionName, Mail(MailRecord(emails, subject, body)), mailAccepted);
    outcome := if mailed then Registered else MailFailed;
  }
}
