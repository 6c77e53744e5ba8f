/**
 * The admin dashboard's event lifecycle (admin/admin-dashboard.js): making one event the active
 * one, opening and closing registration, creating events and saving past events.
 */
module AdminDashboard {
  import opened Wrappers
  import opened Store

  // ---------------------------------------------------------------------------------------------
  // Activation
  // ---------------------------------------------------------------------------------------------

  /** The collection as activating `target` means to leave it: only `isActive` changes, and only `target` keeps it set. */
  function Activated(events: map<EventId, Event>, target: EventId): map<EventId, Event> {
    map id | id in events :: events[id].(isActive := id == target)
  }

  /** The collection with the events of `ids` switched off. */
  function Deactivated(events: map<EventId, Event>, ids: set<EventId>): map<EventId, Event> {
    map id | id in events :: if id in ids then events[id].(isActive := false) else events[id]
  }

  /** After a successful activation the target, and nothing else, is active, whatever was active before. */
  lemma ActivatedLeavesOnlyTarget(events: map<EventId, Event>, target: EventId)
    requires target in events
    ensures ActiveIds(Activated(events, target)) == {target}
    ensures AtMostOneActive(Activated(events, target))
  {
    var after := Activated(events, target);
    assert after[target].isActive;
  }

  /** Activation writes only `isActive`: no event appears or disappears, no other field changes, and an event that was neither active nor the target is untouched. */
  lemma ActivatedChangesOnlyIsActive(events: map<EventId, Event>, target: EventId)
    ensures Activated(events, target).Keys == events.Keys
    ensures forall id :: id in events ==>
      Activated(events, target)[id].(isActive := events[id].isActive) == events[id]
    ensures forall id :: id in events && id != target && !events[id].isActive ==>
      Activated(events, target)[id] == events[id]
  {
  }

  lemma ApplyBatchAppend(events: map<EventId, Event>, batch: seq<Write>, w: Write)
    ensures ApplyBatch(events, batch + [w]) == ApplyWrite(ApplyBatch(events, batch), w)
  {
    assert (batch + [w])[..|batch|] == batch;
  }

  lemma DeactivateOneMore(events: map<EventId, Event>, ids: set<EventId>, id: EventId)
    requires id in events
    ensures ApplyWrite(Deactivated(events, ids), SetActive(id, false)) == Deactivated(events, ids + {id})
  {
  }

  /** Switching every active event off and then the target on is exactly the intended activation. */
  lemma DeactivateAllThenTarget(events: map<EventId, Event>, target: EventId)
    requires target in events
    ensures ApplyWrite(Deactivated(events, ActiveIds(events)), SetActive(target, true)) == Activated(events, target)
  {
    var lhs := ApplyWrite(Deactivated(events, ActiveIds(events)), SetActive(target, true));
    var rhs := Activated(events, target);
    assert lhs.Keys == rhs.Keys;
    forall id | id in events
      ensures lhs[id] == rhs[id]
    {
      if id != target && !events[id].isActive {
        assert events[id].(isActive := false) == events[id];
      }
    }
  }

  /**
   * `activeQuery.forEach(doc => batch.update(doc.ref, { isActive: false }))`: one update per
   * active event, every one of them naming an existing document.
   */
  method QueueDeactivations(events: map<EventId, Event>) returns (batch: seq<Write>)
    ensures TargetsExist(events, batch)
    ensures ApplyBatch(events, batch) == Deactivated(events, ActiveIds(events))
  {
    var pending := ActiveIds(events);
    batch := [];
    ghost var queued: set<EventId> := {};
    while pending != {}
      invariant pending + queued == ActiveIds(events) && pending !! queued
      invariant forall k :: 0 <= k < |batch| ==> batch[k].id in queued
      invariant ApplyBatch(events, batch) == Deactivated(events, queued)
      decreases pending
    {
      var id :| id in pending;
      ApplyBatchAppend(events, batch, SetActive(id, false));
      DeactivateOneMore(events, queued, id);
      batch := batch + [SetActive(id, false)];
      pending := pending - {id};
      queued := queued + {id};
    }
  }

  /**
   * `setActiveEvent(target)`: query the active events, queue an `isActive = false` update for
   * each into one batch, queue `isActive = true` for the target, and commit. The commit fails as
   * a whole, leaving the collection as it was, when the backend refuses it or when the target
   * document does not exist.
   */
  method SetActiveEvent(db: Database, target: EventId, commitAccepted: bool) returns (ok: bool)
    requires db.Valid()
    modifies db
    ensures db.Valid()
    ensures ok == (commitAccepted && target in old(db.events))
    ensures db.events == (if ok then Activated(old(db.events), target) else old(db.events))
    ensures ok ==> ActiveIds(db.events) == {target}
    ensures db.nextEventId == old(db.nextEventId) && db.pastEvents == old(db.pastEvents)
    ensures db.collections == old(db.collections)
  {
    var events := db.events;
    var deactivations := QueueDeactivations(events);
    var batch := deactivations + [SetActive(target, true)];
    ApplyBatchAppend(events, deactivations, SetActive(target, true));
    assert TargetsExist(events, batch) <==> target in events by {
      assert batch[|batch| - 1].id == target;
      assert forall k :: 0 <= k < |deactivations| ==> batch[k] == deactivations[k];
    }
    ok := db.Commit(batch, commitAccepted);
    if ok {
      DeactivateAllThenTarget(events, target);
      ActivatedLeavesOnlyTarget(events, target);
    }
  }

  /** One click of an Activate button: its target and whether the backend accepted the commit. */
  datatype Activation = Activation(target: EventId, commitAccepted: bool)

  /** The collection after a sequence of activation attempts, each one as SetActiveEvent performs it. */
  function AfterActivations(events: map<EventId, Event>, acts: seq<Activation>): map<EventId, Event>
  {
    if acts == [] then events
    else
      var before := AfterActivations(events, acts[..|acts| - 1]);
      var a := acts[|acts| - 1];
      if a.commitAccepted && a.target in before then Activated(before, a.target) else before
  }

  lemma {:induction false} AfterActivationsKeepsIds(events: map<EventId, Event>, acts: seq<Activation>)
    ensures AfterActivations(events, acts).Keys == events.Keys
  {
    if acts != [] {
      AfterActivationsKeepsIds(events, acts[..|acts| - 1]);
    }
  }

  /** Starting with at most one active event, no sequence of activations ever makes two active. */
  lemma {:induction false} ActivationsKeepAtMostOneActive(events: map<EventId, Event>, acts: seq<Activation>)
    requires AtMostOneActive(events)
    ensures AtMostOneActive(AfterActivations(events, acts))
  {
    if acts != [] {
      var before := AfterActivations(events, acts[..|acts| - 1]);
      ActivationsKeepAtMostOneActive(events, acts[..|acts| - 1]);
      var a := acts[|acts| - 1];
      if a.commitAccepted && a.target in before {
        ActivatedLeavesOnlyTarget(before, a.target);
      }
    }
  }

  /**
   * From any starting state, even one with several active events, once one activation of an
   * existing event has committed exactly one event is active, and this stays so.
   */
  lemma {:induction false} ActivationRepairsInvariant(events: map<EventId, Event>, acts: seq<Activation>, k: nat)
    requires k < |acts| && acts[k].commitAccepted && acts[k].target in events
    ensures |ActiveIds(AfterActivations(events, acts))| == 1
  {
    var before := AfterActivations(events, acts[..|acts| - 1]);
    var a := acts[|acts| - 1];
    AfterActivationsKeepsIds(events, acts[..|acts| - 1]);
    if a.commitAccepted && a.target in before {
      ActivatedLeavesOnlyTarget(before, a.target);
    } else {
      assert k < |acts| - 1;
      assert acts[..|acts| - 1][k] == acts[k];
      ActivationRepairsInvariant(events, acts[..|acts| - 1], k);
    }
  }

  // ---------------------------------------------------------------------------------------------
  // Opening and closing registration
  // ---------------------------------------------------------------------------------------------

  /** The status the toggle button writes: `'open'` becomes `'closed'`, every other value `'open'`. */
  function FlippedStatus(status: string): (r: string)
    ensures r == "closed" <==> status == "open"
    ensures r == "open" <==> status != "open"
  {
    if status == "open" then "closed" else "open"
  }

  /**
   * Toggling twice restores `'open'` and `'closed'`; any other value is opened by the first
   * toggle and closed by the second, so it ends up `'closed'`.
   */
  lemma FlippedStatusTwice(status: string)
    ensures FlippedStatus(FlippedStatus(status)) == status <==> status == "open" || status == "closed"
    ensures status != "open" ==> FlippedStatus(FlippedStatus(status)) == "closed"
  {
    assert |"open"| != |"closed"|;
  }

  /** The collection after toggling `id`; a missing id changes nothing. */
  function Toggled(events: map<EventId, Event>, id: EventId): map<EventId, Event> {
    if id in events then events[id := events[id].(status := FlippedStatus(events[id].status))] else events
  }

  /** Toggling touches one event's status only, so which events are active does not change. */
  lemma ToggledKeepsActiveIds(events: map<EventId, Event>, id: EventId)
    ensures ActiveIds(Toggled(events, id)) == ActiveIds(events)
    ensures AtMostOneActive(events) ==> AtMostOneActive(Toggled(events, id))
    ensures Toggled(events, id).Keys == events.Keys
    ensures forall other :: other in events && other != id ==> Toggled(events, id)[other] == events[other]
  {
  }

  /** `toggleEventStatus(id)`: read the document and, if it exists, write the flipped status. */
  method ToggleEventStatus(db: Database, id: EventId, updateAccepted: bool) returns (toggled: bool)
    requires db.Valid()
    modifies db
    ensures db.Valid()
    ensures toggled == (id in old(db.events) && updateAccepted)
    ensures db.events == (if toggled then Toggled(old(db.events), id) else old(db.events))
    ensures ActiveIds(db.events) == ActiveIds(old(db.events))
    ensures db.nextEventId == old(db.nextEventId) && db.pastEvents == old(db.pastEvents)
    ensures db.collections == old(db.collections)
  {
    if id in db.events {
      var newStatus := FlippedStatus(db.events[id].status);
      db.UpdateStatus(id, newStatus, updateAccepted);
      toggled := updateAccepted;
    } else {
      toggled := false;
    }
    ToggledKeepsActiveIds(old(db.events), id);
  }

  // ---------------------------------------------------------------------------------------------
  // Creating events
  // ---------------------------------------------------------------------------------------------

  /** What the create-event form holds when it is submitted. */
  datatype EventForm = EventForm(
    eventName: string,
    description: string,
    participationType: string,
    teamSize: nat,
    emailTemplate: string,
    questions: seq<Question>)

  /** `.filter(q => q.label)`: questions whose label is the empty string are dropped, the rest kept in order. */
  function LabelledQuestions(qs: seq<Question>): (r: seq<Question>)
    ensures |r| <= |qs|
    ensures forall q :: q in r ==> q in qs && q.labelText != ""
  {
    if qs == [] then []
    else (if qs[0].labelText != "" then [qs[0]] else []) + LabelledQuestions(qs[1..])
  }

  /** Filtering works piecewise, so the kept questions stay in their original order. */
  lemma {:induction false} LabelledQuestionsSplit(a: seq<Question>, b: seq<Question>)
    ensures LabelledQuestions(a + b) == LabelledQuestions(a) + LabelledQuestions(b)
  {
    if a == [] {
      assert a + b == b;
    } else {
      var head := if a[0].labelText != "" then [a[0]] else [];
      assert (a + b)[0] == a[0] && (a + b)[1..] == a[1..] + b;
      calc {
        LabelledQuestions(a + b);
        head + LabelledQuestions(a[1..] + b);
        { LabelledQuestionsSplit(a[1..], b); }
        head + (LabelledQuestions(a[1..]) + LabelledQuestions(b));
        (head + LabelledQuestions(a[1..])) + LabelledQuestions(b);
      }
    }
  }

  /** No question with a non-empty label is lost, and the filter changes nothing when every label is filled in. */
  lemma {:induction false} LabelledQuestionsKeepsLabelled(qs: seq<Question>)
    ensures forall q :: q in qs && q.labelText != "" ==> q in LabelledQuestions(qs)
    ensures (forall i :: 0 <= i < |qs| ==> qs[i].labelText != "") ==> LabelledQuestions(qs) == qs
  {
    if qs != [] {
      LabelledQuestionsKeepsLabelled(qs[1..]);
    }
  }

  /** The document written for a new event: the form's fields, the poster URL, closed and inactive. */
  function NewEvent(form: EventForm, posterURL: string, now: nat): Event {
    Event(form.eventName, form.description, posterURL, form.participationType, form.teamSize,
          "closed", false, form.emailTemplate, LabelledQuestions(form.questions), now)
  }

  /** Adding an inactive event under a fresh id leaves the set of active events as it was. */
  lemma AddingInactiveEventKeepsActiveIds(events: map<EventId, Event>, id: EventId, e: Event)
    requires id !in events && !e.isActive
    ensures ActiveIds(events[id := e]) == ActiveIds(events)
    ensures AtMostOneActive(events) ==> AtMostOneActive(events[id := e])
  {
  }

  /**
   * The create-event submit handler. `poster` is the download URL of the uploaded poster, `None`
   * when no file was chosen or the upload failed; nothing is written then.
   */
  method CreateEvent(db: Database, form: EventForm, poster: Option<string>, now: nat, addAccepted: bool)
    returns (id: Option<EventId>)
    requires db.Valid()
    modifies db
    ensures db.Valid()
    ensures id.Some? == (poster.Some? && addAccepted)
    ensures id.Some? ==> (id.value !in old(db.events)
                          && db.events == old(db.events)[id.value := NewEvent(form, poster.value, now)])
    ensures id.None? ==> db.events == old(db.events)
    ensures ActiveIds(db.events) == ActiveIds(old(db.events))
    ensures db.pastEvents == old(db.pastEvents) && db.collections == old(db.collections)
  {
    if poster.None? {
      return None;
    }
    var e := NewEvent(form, poster.value, now);
    id := db.AddEvent(e, addAccepted);
    if id.Some? {
      AddingInactiveEventKeepsActiveIds(old(db.events), id.value, e);
    }
  }

  // ---------------------------------------------------------------------------------------------
  // Past events
  // ---------------------------------------------------------------------------------------------

  /**
   * One of the three past-event slots of the form: its title and date, whether a poster file was
   * chosen, the download URL of the upload (`None` when the upload threw) and whether the backend
   * accepted the write.
   */
  datatype PastEventSlot = PastEventSlot(
    title: string,
    date: string,
    posterChosen: bool,
    uploadedURL: Option<string>,
    addAccepted: bool)

  /** `title && date && posterFile`. */
  predicate SlotFilled(slot: PastEventSlot) {
    slot.title != "" && slot.date != "" && slot.posterChosen
  }

  /** The record a slot contributes: one when it is filled and its upload and write succeed, none otherwise. */
  function SlotRecords(slot: PastEventSlot, now: nat): seq<PastEvent> {
    if SlotFilled(slot) && slot.uploadedURL.Some? && slot.addAccepted
    then [PastEvent(slot.title, slot.date, slot.uploadedURL.value, now)]
    else []
  }

  /** The records the slots contribute, slot by slot in ascending order. */
  function SavedPastEvents(slots: seq<PastEventSlot>, now: nat): seq<PastEvent> {
    if slots == [] then []
    else SavedPastEvents(slots[..|slots| - 1], now) + SlotRecords(slots[|slots| - 1], now)
  }

  /**
   * Each slot is handled on its own: what one slot does, failure included, does not change what
   * a later slot saves, and there is never more than one record per slot.
   */
  lemma {:induction false} SavedPastEventsSplit(a: seq<PastEventSlot>, b: seq<PastEventSlot>, now: nat)
    ensures SavedPastEvents(a + b, now) == SavedPastEvents(a, now) + SavedPastEvents(b, now)
    ensures |SavedPastEvents(a, now)| <= |a|
    decreases |a| + |b|
  {
    if b == [] {
      assert a + b == a;
      if a != [] {
        SavedPastEventsSplit(a[..|a| - 1], [], now);
      }
    } else {
      assert (a + b)[..|a + b| - 1] == a + b[..|b| - 1];
      SavedPastEventsSplit(a, b[..|b| - 1], now);
    }
  }

  /** `p` is the record some filled slot would write, with its uploaded poster. */
  predicate FromFilledSlot(slots: seq<PastEventSlot>, p: PastEvent, now: nat) {
    exists k :: 0 <= k < |slots| && SlotFilled(slots[k]) && slots[k].uploadedURL == Some(p.posterURL)
                && p == PastEvent(slots[k].title, slots[k].date, p.posterURL, now)
  }

  /** Every saved record comes from a filled slot, with that slot's title, date and uploaded poster. */
  lemma {:induction false} SavedPastEventsComeFromFilledSlots(slots: seq<PastEventSlot>, now: nat)
    ensures forall p :: p in SavedPastEvents(slots, now) ==> FromFilledSlot(slots, p, now)
  {
    if slots != [] {
      var init := slots[..|slots| - 1];
      SavedPastEventsComeFromFilledSlots(init, now);
      forall p | p in SavedPastEvents(slots, now)
        ensures FromFilledSlot(slots, p, now)
      {
        if p in SavedPastEvents(init, now) {
          var k :| 0 <= k < |init| && SlotFilled(init[k]) && init[k].uploadedURL == Some(p.posterURL)
                   && p == PastEvent(init[k].title, init[k].date, p.posterURL, now);
          assert slots[k] == init[k];
        } else {
          assert p in SlotRecords(slots[|slots| - 1], now);
        }
      }
    }
  }

  /** The past-events submit handler: slots 1 to 3 in ascending order, each in its own try/catch. */
  method SavePastEvents(db: Database, slots: seq<PastEventSlot>, now: nat)
    requires db.Valid() && |slots| == 3
    modifies db
    ensures db.Valid()
    ensures db.pastEvents == old(db.pastEvents) + SavedPastEvents(slots, now)
    ensures |db.pastEvents| <= |old(db.pastEvents)| + 3
    ensures db.events == old(db.events) && db.nextEventId == old(db.nextEventId)
    ensures db.collections == old(db.collections)
  {
    for i := 1 to 4
      invariant db.pastEvents == old(db.pastEvents) + SavedPastEvents(slots[..i - 1], now)
      invariant db.events == old(db.events) && db.nextEventId == old(db.nextEventId)
      invariant db.collections == old(db.collections)
      invariant db.Valid()
    {
      var slot := slots[i - 1];
      assert slots[..i][..i - 1] == slots[..i - 1];
      if SlotFilled(slot) && slot.uploadedURL.Some? {
        db.AddPastEvent(PastEvent(slot.title, slot.date, slot.uploadedURL.value, now), slot.addAccepted);
      }
    }
    assert slots[..3] == slots;
    SavedPastEventsSplit(slots, [], now);
  }
}
