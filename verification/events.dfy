/**
 * The event record: three required fields, the server's ingestion stamp and
 * whatever other fields the client sent; its view as a JSON object; and the
 * parser for one line of the text input format.
 */
module Events {
  import opened Wrappers
  import opened JsonValues
  import opened Text

  const UserIdKey: string := "user_id"
  const EventTypeKey: string := "event_type"
  const EventTimestampKey: string := "event_timestamp"
  const AddedAtKey: string := "added_at"

  /** The keys the record stores in dedicated fields. */
  const ReservedKeys: set<string> := {UserIdKey, EventTypeKey, EventTimestampKey, AddedAtKey}

  /**
   * A stored event. The three required fields keep whatever JSON value the
   * client sent (only their presence is ever checked); `addedAt` is the
   * server's stamp; `extra` holds every other field, untouched.
   */
  datatype Event = Event(
    userId: Json,
    eventType: Json,
    eventTimestamp: Json,
    addedAt: string,
    extra: map<string, Json>)

  /** The extra fields do not shadow the dedicated ones. */
  predicate WellFormed(e: Event) {
    e.extra.Keys !! ReservedKeys
  }

  /** Every record of the store is well formed. */
  predicate WellFormedStore(store: seq<Event>) {
    forall i :: 0 <= i < |store| ==> WellFormed(store[i])
  }

  /** The record is well formed and carries the ingestion stamp `stamp`. */
  predicate Stamped(e: Event, stamp: string) {
    WellFormed(e) && e.addedAt == stamp
  }

  /** Every record of `es` is well formed and carries the stamp. */
  predicate AllStamped(es: seq<Event>, stamp: string) {
    forall k :: 0 <= k < |es| ==> Stamped(es[k], stamp)
  }

  /** Stamped records stay stamped when two batches are put together. */
  lemma AllStampedAppend(a: seq<Event>, b: seq<Event>, stamp: string)
    requires AllStamped(a, stamp) && AllStamped(b, stamp)
    ensures AllStamped(a + b, stamp)
  {
    forall k | 0 <= k < |a + b|
      ensures Stamped((a + b)[k], stamp)
    {
      if k >= |a| {
        assert (a + b)[k] == b[k - |a|];
      }
    }
  }

  /** At most one stamped record, as a sequence. */
  lemma AllStampedOption(o: Option<Event>, stamp: string)
    requires o.Some? ==> Stamped(o.value, stamp)
    ensures AllStamped(AsSeq(o), stamp)
  {
  }

  /** The object carries the three keys every submitted event must have. */
  predicate HasRequiredKeys(fields: map<string, Json>) {
    UserIdKey in fields && EventTypeKey in fields && EventTimestampKey in fields
  }

  /** The record as the JSON object the service returns and persists. */
  function ToObject(e: Event): map<string, Json> {
    e.extra[UserIdKey := e.userId][EventTypeKey := e.eventType]
           [EventTimestampKey := e.eventTimestamp][AddedAtKey := JStr(e.addedAt)]
  }

  /**
   * The record stored for an accepted object: `added_at` becomes the stamp,
   * replacing any value the client supplied, and every other field is kept.
   */
  function StampObject(fields: map<string, Json>, stamp: string): (e: Event)
    requires HasRequiredKeys(fields)
    ensures Stamped(e, stamp)
    ensures ToObject(e) == fields[AddedAtKey := JStr(stamp)]
  {
    Event(fields[UserIdKey], fields[EventTypeKey], fields[EventTimestampKey], stamp, fields - ReservedKeys)
  }

  /** Reads a stored object back as a record; `None` when a dedicated field is missing or the stamp is not a string. */
  function FromObject(fields: map<string, Json>): Option<Event> {
    if HasRequiredKeys(fields) && AddedAtKey in fields && fields[AddedAtKey].JStr? then
      Some(Event(fields[UserIdKey], fields[EventTypeKey], fields[EventTimestampKey],
                 fields[AddedAtKey].s, fields - ReservedKeys))
    else
      None
  }

  /** Reading back the object view of a well-formed record gives the record. */
  lemma ObjectRoundTrip(e: Event)
    requires WellFormed(e)
    ensures FromObject(ToObject(e)) == Some(e)
  {
    var o := ToObject(e);
    assert o - ReservedKeys == e.extra;
  }

  // ---------------------------------------------------------------------------
  // Persistence snapshot

  /**
   * The store as the JSON document written after every mutation
   * (`json.dump(events_data)`): an array holding each record's object view.
   */
  function Snapshot(store: seq<Event>): (doc: Json)
    ensures doc.JArray? && |doc.items| == |store|
    ensures forall i :: 0 <= i < |store| && WellFormed(store[i]) ==>
      doc.items[i].JObject? && FromObject(doc.items[i].fields) == Some(store[i])
  {
    ObjectsReadBack(store);
    JArray(seq(|store|, i requires 0 <= i < |store| => JObject(ToObject(store[i]))))
  }

  /** The object view of each well-formed record of `store` reads back as that record. */
  lemma ObjectsReadBack(store: seq<Event>)
    ensures forall i :: 0 <= i < |store| && WellFormed(store[i]) ==> FromObject(ToObject(store[i])) == Some(store[i])
  {
    forall i | 0 <= i < |store| && WellFormed(store[i])
      ensures FromObject(ToObject(store[i])) == Some(store[i])
    {
      ObjectRoundTrip(store[i]);
    }
  }

  /** Reads a snapshot document back; `None` when it is not an array of record objects. */
  function Restore(doc: Json): Option<seq<Event>> {
    if doc.JArray? then RestoreAll(doc.items) else None
  }

  /** Reads each element of a snapshot array as a record. */
  function RestoreAll(items: seq<Json>): Option<seq<Event>>
    decreases |items|
  {
    if items == [] then Some([])
    else if !items[0].JObject? then None
    else
      match (FromObject(items[0].fields), RestoreAll(items[1..]))
      case (Some(e), Some(rest)) => Some([e] + rest)
      case _ => None
  }

  /** Saving a store of well-formed records and loading it back reproduces the same ordered sequence. */
  lemma {:induction false} SnapshotRoundTrip(store: seq<Event>)
    requires WellFormedStore(store)
    ensures Restore(Snapshot(store)) == Some(store)
  {
    RestoreAllSnapshot(store);
  }

  lemma {:induction false} RestoreAllSnapshot(store: seq<Event>)
    requires WellFormedStore(store)
    ensures RestoreAll(Snapshot(store).items) == Some(store)
    decreases |store|
  {
    if store != [] {
      var items := Snapshot(store).items;
      ObjectRoundTrip(store[0]);
      assert items[1..] == Snapshot(store[1..]).items;
      RestoreAllSnapshot(store[1..]);
      assert [store[0]] + store[1..] == store;
    }
  }

  // ---------------------------------------------------------------------------
  // The text line format

  /** The record built from a text line's first three tokens; text records have no extra fields. */
  function TextEvent(userId: string, eventType: string, timestamp: string, stamp: string): Event {
    Event(JStr(userId), JStr(eventType), JStr(timestamp), stamp, map[])
  }

  /** Parses one line of the text format: the first three whitespace-separated tokens, or `None` for fewer. */
  function ParseLine(line: string, stamp: string): (r: Option<Event>)
    ensures r.Some? ==> Stamped(r.value, stamp)
  {
    var parts := Tokens(Strip(line));
    if |parts| >= 3 then Some(TextEvent(parts[0], parts[1], parts[2], stamp)) else None
  }

  /**
   * A line accepted by the parser is one with at least three tokens, and
   * the record is built from tokens 0, 1 and 2 of the unstripped line.
   */
  lemma ParseLineAccepts(line: string, stamp: string)
    ensures ParseLine(line, stamp).Some? <==> |Tokens(line)| >= 3
    ensures |Tokens(line)| >= 3 ==>
      var ws := Tokens(line);
      ParseLine(line, stamp) == Some(TextEvent(ws[0], ws[1], ws[2], stamp))
  {
    TokensIgnoreStrip(line);
  }

  /** The parser's verdict depends only on the line's tokens. */
  lemma ParseLineFromTokens(line: string, ws: seq<string>, stamp: string)
    requires Tokens(line) == ws
    ensures ParseLine(line, stamp) == if |ws| >= 3 then Some(TextEvent(ws[0], ws[1], ws[2], stamp)) else None
  {
    ParseLineAccepts(line, stamp);
  }

  /**
   * A line made of words separated by runs of whitespace of any kind and
   * length, with any whitespace around it, parses to its first three words;
   * with fewer than three words it is rejected.
   */
  lemma ParseLineOfWords(pre: string, ws: seq<string>, seps: seq<string>, post: string, stamp: string)
    requires AllSpace(pre) && AllSpace(post)
    requires forall k :: 0 <= k < |ws| ==> IsWord(ws[k])
    requires Separates(seps, ws)
    ensures ParseLine(pre + Spaced(ws, seps) + post, stamp) ==
      if |ws| >= 3 then Some(TextEvent(ws[0], ws[1], ws[2], stamp)) else None
  {
    assert Tokens(pre + Spaced(ws, seps) + post) == ws by {
      TokensIgnorePadding(pre, Spaced(ws, seps), post);
      TokensOfSpaced(ws, seps);
    }
    ParseLineFromTokens(pre + Spaced(ws, seps) + post, ws, stamp);
  }

  /** A line whose tokens are separated by a tab and by two spaces. */
  lemma ExampleTabbedLine(stamp: string)
    ensures ParseLine("u1\tclick  2024", stamp) == Some(TextEvent("u1", "click", "2024", stamp))
  {
    var ws := ["u1", "click", "2024"];
    var seps := ["\t", "  "];
    assert IsWord(ws[0]) && IsWord(ws[1]) && IsWord(ws[2]);
    assert Spaced(ws, seps) == "u1\tclick  2024";
    assert [] + Spaced(ws, seps) + [] == Spaced(ws, seps);
    ParseLineOfWords([], ws, seps, [], stamp);
  }

  /** A blank line never yields a record, so the source's blank-line check only saves work. */
  lemma BlankLineRejected(line: string, stamp: string)
    requires Strip(line) == []
    ensures ParseLine(line, stamp) == None
  {
    BlankIffNoTokens(line);
    ParseLineAccepts(line, stamp);
  }
}
