/**
 * The hosted document database both pages talk to, reduced to what the registration site uses:
 * the `events` collection, the `pastEvents` collection, the per-event registration and mail
 * collections, single-document writes and the all-or-nothing write batch. Whether the backend
 * accepts a write is outside the model and arrives as a boolean parameter.
 */
module Store {
  import opened Wrappers

  type EventId = nat

  /** An admin-authored extra question (`labelText` is the source's `label`, a reserved word here); `kind` is the stored type string (`text`, `yesno`, `rating`, or anything else). */
  datatype Question = Question(labelText: string, kind: string)

  /**
   * A document of the `events` collection. `status`, `participationType` and the question kinds
   * are kept as the strings the pages compare against; `createdAt` is an opaque server timestamp.
   */
  datatype Event = Event(
    eventName: string,
    description: string,
    posterURL: string,
    participationType: string,
    teamSize: nat,
    status: string,
    isActive: bool,
    emailTemplate: string,
    customQuestions: seq<Question>,
    createdAt: nat)

  /** A document of the `pastEvents` collection. */
  datatype PastEvent = PastEvent(title: string, date: string, posterURL: string, createdAt: nat)

  /** A field value of a registration document. */
  datatype Value = Text(text: string) | Number(number: int) | ServerTime(time: nat)

  /** The outbox record an external mailer consumes; a `None` recipient is a JavaScript `undefined`. */
  datatype MailRecord = MailRecord(to: seq<Option<string>>, subject: string, html: string)

  /** A document of one of the collections named after an event. */
  datatype Document = Registration(fields: map<string, Value>) | Mail(mail: MailRecord)

  /**
   * Whether the database takes the document at all: it refuses any field whose value is
   * `undefined`, so a mail record with an `undefined` recipient is never stored.
   */
  predicate Storable(doc: Document) {
    doc.Mail? ==> forall k :: 0 <= k < |doc.mail.to| ==> doc.mail.to[k].Some?
  }

  /** One `batch.update(ref, { isActive: active })` queued in a write batch. */
  datatype Write = SetActive(id: EventId, active: bool)

  /** The ids a `where('isActive', '==', true)` query returns. */
  function ActiveIds(events: map<EventId, Event>): (ids: set<EventId>)
    ensures forall id :: id in ids <==> id in events && events[id].isActive
  {
    set id | id in events && events[id].isActive
  }

  /** The invariant the admin dashboard is meant to keep: at most one event is active. */
  predicate AtMostOneActive(events: map<EventId, Event>) {
    forall a, b :: a in events && b in events && events[a].isActive && events[b].isActive ==> a == b
  }

  /** Every write of the batch names an existing document (an update of a missing one fails the batch). */
  predicate TargetsExist(events: map<EventId, Event>, batch: seq<Write>) {
    forall k :: 0 <= k < |batch| ==> batch[k].id in events
  }

  function ApplyWrite(events: map<EventId, Event>, w: Write): map<EventId, Event> {
    if w.id in events then events[w.id := events[w.id].(isActive := w.active)] else events
  }

  /** The collection after the writes of a batch, applied in the order they were queued. */
  function ApplyBatch(events: map<EventId, Event>, batch: seq<Write>): map<EventId, Event>
  {
    if batch == [] then events
    else ApplyWrite(ApplyBatch(events, batch[..|batch| - 1]), batch[|batch| - 1])
  }

  /** A batch changes no document's key set and no field other than `isActive`. */
  lemma {:induction false} ApplyBatchTouchesOnlyIsActive(events: map<EventId, Event>, batch: seq<Write>)
    ensures ApplyBatch(events, batch).Keys == events.Keys
    ensures forall id :: id in events ==>
      ApplyBatch(events, batch)[id] == events[id].(isActive := ApplyBatch(events, batch)[id].isActive)
  {
    if batch != [] {
      ApplyBatchTouchesOnlyIsActive(events, batch[..|batch| - 1]);
    }
  }

  class Database {
    var events: map<EventId, Event>
    var nextEventId: EventId
    var pastEvents: seq<PastEvent>
    var collections: map<string, seq<Document>>

    /** Automatically generated ids are never reused. */
    ghost predicate Valid()
      reads this
    {
      forall id :: id in events ==> id < nextEventId
    }

    constructor ()
      ensures Valid()
      ensures events == map[] && pastEvents == [] && collections == map[]
    {
      events, nextEventId, pastEvents, collections := map[], 0, [], map[];
    }

    /** `where('isActive', '==', true).limit(1)`: some active event, or none when there is none. */
    method QueryActive() returns (found: Option<EventId>)
      ensures found.None? <==> ActiveIds(events) == {}
      ensures found.Some? ==> found.value in events && events[found.value].isActive
    {
      var active := ActiveIds(events);
      if active == {} {
        found := None;
      } else {
        var id :| id in active;
        found := Some(id);
      }
    }

    /** `batch.commit()`: every queued write takes effect, or none does. */
    method Commit(batch: seq<Write>, accepted: bool) returns (ok: bool)
      requires Valid()
      modifies this
      ensures Valid()
      ensures ok == (accepted && TargetsExist(old(events), batch))
      ensures events == (if ok then ApplyBatch(old(events), batch) else old(events))
      ensures nextEventId == old(nextEventId) && pastEvents == old(pastEvents)
      ensures collections == old(collections)
    {
      ok := accepted && forall k :: 0 <= k < |batch| ==> batch[k].id in events;
      if ok {
        ApplyBatchTouchesOnlyIsActive(events, batch);
        events := ApplyBatch(events, batch);
      }
    }

    /** `update({ status })` on an existing event document. */
    method UpdateStatus(id: EventId, status: string, accepted: bool)
      requires Valid() && id in events
      modifies this
      ensures Valid()
      ensures events == (if accepted then old(events)[id := old(events)[id].(status := status)] else old(events))
      ensures nextEventId == old(nextEventId) && pastEvents == old(pastEvents)
      ensures collections == old(collections)
    {
      if accepted {
        events := events[id := events[id].(status := status)];
      }
    }

    /** `collection('events').add(e)`: stores `e` under a fresh id. */
    method AddEvent(e: Event, accepted: bool) returns (id: Option<EventId>)
      requires Valid()
      modifies this
      ensures Valid()
      ensures id.Some? == accepted
      ensures id.Some? ==> id.value !in old(events) && events == old(events)[id.value := e]
      ensures id.None? ==> events == old(events)
      ensures pastEvents == old(pastEvents) && collections == old(collections)
    {
      if accepted {
        id := Some(nextEventId);
        events := events[nextEventId := e];
        nextEventId := nextEventId + 1;
      } else {
        id := None;
      }
    }

    /** `collection('pastEvents').add(p)`. */
    method AddPastEvent(p: PastEvent, accepted: bool)
      requires Valid()
      modifies this
      ensures Valid()
      ensures pastEvents == (if accepted then old(pastEvents) + [p] else old(pastEvents))
      ensures events == old(events) && nextEventId == old(nextEventId)
      ensures collections == old(collections)
    {
      if accepted {
        pastEvents := pastEvents + [p];
      }
    }

    /**
     * `collection(name).add(doc)`; a collection springs into existence with its first document.
     * The write fails when the backend refuses it or when the document holds an `undefined` value.
     */
    method AddDocument(name: string, doc: Document, accepted: bool) returns (ok: bool)
      requires Valid()
      modifies this
      ensures Valid()
      ensures ok == (accepted && Storable(doc))
      ensures collections == (if ok then old(collections)[name := Documents(old(collections), name) + [doc]]
                              else old(collections))
      ensures events == old(events) && nextEventId == old(nextEventId)
      ensures pastEvents == old(pastEvents)
    {
      ok := accepted && (doc.Mail? ==> forall k :: 0 <= k < |doc.mail.to| ==> doc.mail.to[k].Some?);
      if ok {
        collections := collections[name := Documents(collections, name) + [doc]];
      }
    }
  }

  /** The documents of a collection; a collection nobody wrote to is empty. */
  function Documents(collections: map<string, seq<Document>>, name: string): seq<Document> {
    if name in collections then collections[name] else []
  }
}
