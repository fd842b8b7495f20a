/**
 * The body of the POST handler: turn one submission into new records and
 * append them to the store, or refuse it. The server clock is the `stamp`
 * parameter; decoding the body is done before this point.
 */
module Ingestion {
  import opened Wrappers
  import opened JsonValues
  import opened Text
  import opened Sequences
  import opened Events

  const JsonContentType: string := "application/json"
  const TextContentType: string := "text/plain"

  /** Why a submission was refused. */
  datatype IngestError =
    | MissingRequiredFields    // a single object lacks a required key (HTTP 400)
    | UnsupportedContentType   // the Content-Type is neither of the two accepted ones (HTTP 400)
    | InternalError            // an exception reached the handler's catch-all (HTTP 500)

  /**
   * One POST: the Content-Type header exactly as sent, the body decoded as
   * JSON (`None` when it is not valid JSON), and the body as text.
   */
  datatype Submission = Submission(contentType: string, json: Option<Json>, text: string)

  /** The store after the submission, and the records it added or the reason it was refused. */
  datatype Ingested = Ingested(store: seq<Event>, outcome: Result<seq<Event>, IngestError>)

  // ---------------------------------------------------------------------------
  // JSON submissions

  /**
   * Python's `all(key in v for key in required)`: `None` when the first `in`
   * raises (null, booleans, numbers), otherwise whether all three keys are
   * found.
   */
  function HasAllKeys(v: Json): (r: Option<bool>)
    ensures r.None? <==> v.JNull? || v.JBool? || v.JNum?
    ensures v.JObject? ==> r == Some(HasRequiredKeys(v.fields))
  {
    match Contains(v, UserIdKey)
    case None => None
    case Some(first) =>
      Some(first && Contains(v, EventTypeKey) == Some(true) && Contains(v, EventTimestampKey) == Some(true))
  }

  /**
   * What one submitted JSON value becomes: a stamped record, nothing (a key
   * is missing), or an exception, which is raised both by `in` on a scalar
   * and by stamping `added_at` into an array or a string.
   */
  function Admit(v: Json, stamp: string): Result<Option<Event>, IngestError> {
    match HasAllKeys(v)
    case None => Failure(InternalError)
    case Some(false) => Success(None)
    case Some(true) =>
      if v.JObject? then Success(Some(StampObject(v.fields, stamp))) else Failure(InternalError)
  }

  /** A submitted value that is an object carrying the three required keys. */
  predicate IsCompleteObject(v: Json) {
    v.JObject? && HasRequiredKeys(v.fields)
  }

  /** A submitted value whose processing raises an exception. */
  predicate Raises(v: Json) {
    HasAllKeys(v).None? || (HasAllKeys(v) == Some(true) && !v.JObject?)
  }

  /** The elements of a JSON array submission, each admitted in turn; the first exception aborts the batch. */
  function AdmitBatch(items: seq<Json>, stamp: string): (r: Result<seq<Event>, IngestError>)
    ensures r.Success? ==> AllStamped(r.value, stamp)
    decreases |items|
  {
    if items == [] then Success([])
    else
      match (Admit(items[0], stamp), AdmitBatch(items[1..], stamp))
      case (Failure(e), _) => Failure(e)
      case (Success(_), Failure(e)) => Failure(e)
      case (Success(first), Success(rest)) =>
        AllStampedOption(first, stamp);
        AllStampedAppend(AsSeq(first), rest, stamp);
        Success(AsSeq(first) + rest)
  }

  // ---------------------------------------------------------------------------
  // Text submissions

  /** The parser accepts the line: it has at least three tokens. */
  predicate IsEventLine(line: string) {
    |Tokens(line)| >= 3
  }

  /** The handler's treatment of one line: blank lines are skipped, the others go to the parser. */
  function LineRecord(line: string, stamp: string): (r: Option<Event>)
    ensures r.Some? ==> Stamped(r.value, stamp)
  {
    if Strip(line) != [] then ParseLine(line, stamp) else None
  }

  /** The records of the lines, skipping blank lines and lines the parser rejects. */
  function ParseLines(lines: seq<string>, stamp: string): (r: seq<Event>)
    ensures |r| <= |lines|
    ensures AllStamped(r, stamp)
    decreases |lines|
  {
    if lines == [] then []
    else
      var first := LineRecord(lines[0], stamp);
      var rest := ParseLines(lines[1..], stamp);
      AllStampedOption(first, stamp);
      AllStampedAppend(AsSeq(first), rest, stamp);
      AsSeq(first) + rest
  }

  /** The records of a text body: its lines after stripping the whole body. */
  function ParseText(text: string, stamp: string): seq<Event> {
    ParseLines(Split(Strip(text), '\n'), stamp)
  }

  // ---------------------------------------------------------------------------
  // The handler

  /** Processes one submission against the current store. */
  function AddEvents(store: seq<Event>, sub: Submission, stamp: string): (r: Ingested)
    ensures r.outcome.Failure? ==> r.store == store
    ensures r.outcome.Success? ==> r.store == store + r.outcome.value
    ensures r.outcome.Success? ==> AllStamped(r.outcome.value, stamp)
    ensures sub.contentType != JsonContentType && sub.contentType != TextContentType ==>
      r.outcome == Failure(UnsupportedContentType)
    ensures sub.contentType == TextContentType ==> r.outcome.Success?
  {
    var outcome :=
      if sub.contentType == JsonContentType then
        match sub.json
        case None => Failure(InternalError)
        case Some(JArray(items)) => AdmitBatch(items, stamp)
        case Some(v) =>
          match Admit(v, stamp)
          case Failure(e) => Failure(e)
          case Success(None) => Failure(MissingRequiredFields)
          case Success(Some(e)) => Success([e])
      else if sub.contentType == TextContentType then
        Success(ParseText(sub.text, stamp))
      else
        Failure(UnsupportedContentType);
    if outcome.Success? then Ingested(store + outcome.value, outcome) else Ingested(store, outcome)
  }

  /** A submission keeps every record of the store well formed, whether it is accepted or refused. */
  lemma AddEventsKeepsWellFormed(store: seq<Event>, sub: Submission, stamp: string)
    requires WellFormedStore(store)
    ensures WellFormedStore(AddEvents(store, sub, stamp).store)
  {
    var r := AddEvents(store, sub, stamp);
    if r.outcome.Success? {
      var added := r.outcome.value;
      forall i | 0 <= i < |r.store|
        ensures WellFormed(r.store[i])
      {
        if i >= |store| {
          assert r.store[i] == added[i - |store|];
          assert Stamped(added[i - |store|], stamp);
        }
      }
    }
  }

  // ---------------------------------------------------------------------------
  // JSON submissions: what is kept, what is dropped, what is refused

  /** The records stored for a sequence of complete objects, in order. */
  function StampAll(objs: seq<Json>, stamp: string): (r: seq<Event>)
    requires forall k :: 0 <= k < |objs| ==> IsCompleteObject(objs[k])
  {
    seq(|objs|, k requires 0 <= k < |objs| && IsCompleteObject(objs[k]) => StampObject(objs[k].fields, stamp))
  }

  /**
   * One value is refused with an exception exactly when processing it raises,
   * dropped exactly when it neither raises nor is a complete object, and
   * otherwise becomes the stamped record.
   */
  lemma AdmitCases(v: Json, stamp: string)
    ensures Admit(v, stamp).Failure? <==> Raises(v)
    ensures Admit(v, stamp).Failure? ==> Admit(v, stamp).error == InternalError
    ensures Admit(v, stamp) == Success(None) <==> !Raises(v) && !IsCompleteObject(v)
    ensures IsCompleteObject(v) ==> Admit(v, stamp) == Success(Some(StampObject(v.fields, stamp)))
  {
  }

  /**
   * A batch fails exactly when one of its elements raises; otherwise it
   * yields, in order, the stamped records of exactly its complete objects.
   */
  lemma {:induction false} AdmitBatchSelects(items: seq<Json>, stamp: string)
    ensures AdmitBatch(items, stamp).Failure? <==> exists k :: 0 <= k < |items| && Raises(items[k])
    ensures AdmitBatch(items, stamp).Failure? ==> AdmitBatch(items, stamp).error == InternalError
    ensures AdmitBatch(items, stamp).Success? ==>
      AdmitBatch(items, stamp).value == StampAll(Select(items, IsCompleteObject), stamp)
    decreases |items|
  {
    if items != [] {
      var tail := items[1..];
      AdmitBatchSelects(tail, stamp);
      AdmitCases(items[0], stamp);
      RaisesCons(items);
      var r := AdmitBatch(items, stamp);
      if r.Success? {
        var rest := Select(tail, IsCompleteObject);
        if IsCompleteObject(items[0]) {
          calc {
            r.value;
            [StampObject(items[0].fields, stamp)] + StampAll(rest, stamp);
          == { StampAllCons(items[0], rest, stamp); }
            StampAll([items[0]] + rest, stamp);
            StampAll(Select(items, IsCompleteObject), stamp);
          }
        } else {
          calc {
            r.value;
            [] + StampAll(rest, stamp);
          == { assert [] + rest == rest; }
            StampAll(Select(items, IsCompleteObject), stamp);
          }
        }
      }
    }
  }

  /** Some element of a non-empty sequence raises exactly when its first one or one of the rest does. */
  lemma RaisesCons(items: seq<Json>)
    requires items != []
    ensures (exists k :: 0 <= k < |items| && Raises(items[k])) <==>
      Raises(items[0]) || exists k :: 0 <= k < |items[1..]| && Raises(items[1..][k])
  {
    if exists k :: 0 <= k < |items| && Raises(items[k]) {
      var k :| 0 <= k < |items| && Raises(items[k]);
      if k > 0 {
        assert items[1..][k - 1] == items[k];
      }
    }
  }

  /** The records of a complete object followed by more complete objects. */
  lemma StampAllCons(x: Json, objs: seq<Json>, stamp: string)
    requires IsCompleteObject(x)
    requires forall k :: 0 <= k < |objs| ==> IsCompleteObject(objs[k])
    ensures StampAll([x] + objs, stamp) == [StampObject(x.fields, stamp)] + StampAll(objs, stamp)
  {
    var lhs := StampAll([x] + objs, stamp);
    var rhs := [StampObject(x.fields, stamp)] + StampAll(objs, stamp);
    forall i | 0 <= i < |lhs|
      ensures lhs[i] == rhs[i]
    {
      if i > 0 {
        assert ([x] + objs)[i] == objs[i - 1];
      }
    }
  }

  /**
   * A JSON array submission whose elements do not raise appends exactly its
   * complete objects, in order, each being the submitted object with
   * `added_at` set to the stamp and every other field kept; elements missing
   * a key are dropped without an error. If an element raises, the whole
   * submission fails and the store is unchanged.
   */
  lemma JsonBatchIngest(store: seq<Event>, items: seq<Json>, text: string, stamp: string)
    ensures var r := AddEvents(store, Submission(JsonContentType, Some(JArray(items)), text), stamp);
      && ((forall k :: 0 <= k < |items| ==> !Raises(items[k])) ==>
        var kept := Select(items, IsCompleteObject);
        && r.outcome.Success?
        && r.store == store + r.outcome.value
        && |r.outcome.value| == |kept|
        && forall k :: 0 <= k < |kept| ==>
             ToObject(r.outcome.value[k]) == kept[k].fields[AddedAtKey := JStr(stamp)])
      && ((exists k :: 0 <= k < |items| && Raises(items[k])) ==>
        r == Ingested(store, Failure(InternalError)))
  {
    AdmitBatchSelects(items, stamp);
  }

  /** Objects never raise, so a batch made only of objects always succeeds. */
  lemma ObjectBatchSucceeds(items: seq<Json>, stamp: string)
    requires forall k :: 0 <= k < |items| ==> items[k].JObject?
    ensures AdmitBatch(items, stamp).Success?
    ensures |AdmitBatch(items, stamp).value| == |Select(items, IsCompleteObject)|
  {
    AdmitBatchSelects(items, stamp);
  }

  /**
   * A single JSON object is appended, stamped and otherwise unchanged, when it
   * has the three required keys; otherwise the whole submission is refused
   * as missing required fields and the store is unchanged.
   */
  lemma JsonObjectIngest(store: seq<Event>, fields: map<string, Json>, text: string, stamp: string)
    ensures var r := AddEvents(store, Submission(JsonContentType, Some(JObject(fields)), text), stamp);
      && (!HasRequiredKeys(fields) ==> r == Ingested(store, Failure(MissingRequiredFields)))
      && (HasRequiredKeys(fields) ==>
        && r.outcome.Success?
        && |r.store| == |store| + 1
        && r.store[..|store|] == store
        && r.outcome.value == [r.store[|store|]]
        && ToObject(r.store[|store|]) == fields[AddedAtKey := JStr(stamp)])
  {
    var r := AddEvents(store, Submission(JsonContentType, Some(JObject(fields)), text), stamp);
    if HasRequiredKeys(fields) {
      assert r.store == store + [StampObject(fields, stamp)];
    }
  }

  /**
   * A single JSON value that is not an array or an object is refused: with an
   * exception when processing it raises, as missing required fields otherwise.
   */
  lemma JsonScalarIngest(store: seq<Event>, v: Json, text: string, stamp: string)
    requires !v.JArray? && !v.JObject?
    ensures var r := AddEvents(store, Submission(JsonContentType, Some(v), text), stamp);
      && r.store == store
      && r.outcome == Failure(if Raises(v) then InternalError else MissingRequiredFields)
  {
    AdmitCases(v, stamp);
  }

  /** A body that is not valid JSON makes the JSON decoder raise: refused, store unchanged. */
  lemma JsonUndecodable(store: seq<Event>, text: string, stamp: string)
    ensures AddEvents(store, Submission(JsonContentType, None, text), stamp) == Ingested(store, Failure(InternalError))
  {
  }

  // ---------------------------------------------------------------------------
  // Text submissions: exactly the accepted lines, in order

  /** The record the parser builds from an accepted line: its first three tokens. */
  function LineEvent(line: string, stamp: string): Event
    requires IsEventLine(line)
  {
    var ws := Tokens(line);
    TextEvent(ws[0], ws[1], ws[2], stamp)
  }

  /** The records of a sequence of accepted lines, one per line, in order. */
  function LineEvents(lines: seq<string>, stamp: string): (r: seq<Event>)
    requires forall k :: 0 <= k < |lines| ==> IsEventLine(lines[k])
    ensures |r| == |lines|
    decreases |lines|
  {
    if lines == [] then [] else [LineEvent(lines[0], stamp)] + LineEvents(lines[1..], stamp)
  }

  /** The handler keeps a line exactly when it has three tokens, and then keeps its first three. */
  lemma LineRecordCases(line: string, stamp: string)
    ensures LineRecord(line, stamp).Some? <==> IsEventLine(line)
    ensures IsEventLine(line) ==> LineRecord(line, stamp) == Some(LineEvent(line, stamp))
  {
    BlankIffNoTokens(line);
    ParseLineAccepts(line, stamp);
  }

  /** Lines with the same tokens are treated alike. */
  lemma LineRecordByTokens(a: string, b: string, stamp: string)
    requires Tokens(a) == Tokens(b)
    ensures LineRecord(a, stamp) == LineRecord(b, stamp)
  {
    LineRecordCases(a, stamp);
    LineRecordCases(b, stamp);
  }

  /**
   * Parsing a sequence of lines keeps exactly the accepted lines, in input
   * order, and turns each into its record; blank and short lines are
   * skipped without an error.
   */
  lemma {:induction false} ParseLinesSelects(lines: seq<string>, stamp: string)
    ensures ParseLines(lines, stamp) == LineEvents(Select(lines, IsEventLine), stamp)
    decreases |lines|
  {
    if lines != [] {
      var first := AsSeq(LineRecord(lines[0], stamp));
      assert ParseLines(lines, stamp) == first + ParseLines(lines[1..], stamp);
      ParseLinesSelects(lines[1..], stamp);
      LineRecordCases(lines[0], stamp);
      var sel := Select(lines, IsEventLine);
      var rest := Select(lines[1..], IsEventLine);
      if IsEventLine(lines[0]) {
        assert first == [LineEvent(lines[0], stamp)];
        assert sel == [lines[0]] + rest;
        LineEventsCons(lines[0], rest, stamp);
      } else {
        assert first == [];
        assert sel == rest;
      }
    }
  }

  lemma LineEventsCons(line: string, lines: seq<string>, stamp: string)
    requires IsEventLine(line)
    requires forall k :: 0 <= k < |lines| ==> IsEventLine(lines[k])
    ensures LineEvents([line] + lines, stamp) == [LineEvent(line, stamp)] + LineEvents(lines, stamp)
  {
    ConsParts(line, lines);
  }

  /** Parsing distributes over concatenation of line sequences. */
  lemma {:induction false} ParseLinesAppend(a: seq<string>, b: seq<string>, stamp: string)
    ensures ParseLines(a + b, stamp) == ParseLines(a, stamp) + ParseLines(b, stamp)
    decreases |a|
  {
    if a == [] {
      assert a + b == b;
    } else {
      var first := AsSeq(LineRecord(a[0], stamp));
      calc {
        ParseLines(a + b, stamp);
      == { ConsAppend(a, b); }
        first + ParseLines(a[1..] + b, stamp);
      == { ParseLinesAppend(a[1..], b, stamp); }
        first + (ParseLines(a[1..], stamp) + ParseLines(b, stamp));
      == { AppendAssoc(first, ParseLines(a[1..], stamp), ParseLines(b, stamp)); }
        ParseLines(a, stamp) + ParseLines(b, stamp);
      }
    }
  }

  /** An empty line yields nothing. */
  lemma ParseEmptyLine(stamp: string)
    ensures ParseLines([[]], stamp) == []
  {
    assert Strip([]) == [];
  }

  /** One leading whitespace character of the body changes no record. */
  lemma ParseSplitConsSpace(c: char, s: string, stamp: string)
    requires IsSpace(c)
    ensures ParseLines(Split([c] + s, '\n'), stamp) == ParseLines(Split(s, '\n'), stamp)
  {
    var parts := Split(s, '\n');
    if c == '\n' {
      SplitConsSeparator(s, '\n');
      ParseLinesAppend([[]], parts, stamp);
      ParseEmptyLine(stamp);
    } else {
      SplitConsOther(c, s, '\n');
      TokensLeadingSpace([c], parts[0]);
      LineRecordByTokens([c] + parts[0], parts[0], stamp);
      assert parts == [parts[0]] + parts[1..];
      ParseLinesAppend([[c] + parts[0]], parts[1..], stamp);
      ParseLinesAppend([parts[0]], parts[1..], stamp);
    }
  }

  /** One trailing whitespace character of the body changes no record. */
  lemma ParseSplitSnocSpace(s: string, c: char, stamp: string)
    requires IsSpace(c)
    ensures ParseLines(Split(s + [c], '\n'), stamp) == ParseLines(Split(s, '\n'), stamp)
  {
    if c == '\n' {
      ParseSplitSnocNewline(s, stamp);
    } else {
      ParseSplitSnocBlank(s, c, stamp);
    }
  }

  /** A trailing newline adds an empty line, which yields nothing. */
  lemma ParseSplitSnocNewline(s: string, stamp: string)
    ensures ParseLines(Split(s + ['\n'], '\n'), stamp) == ParseLines(Split(s, '\n'), stamp)
  {
    var parts := Split(s, '\n');
    calc {
      ParseLines(Split(s + ['\n'], '\n'), stamp);
    == { SplitSnocSeparator(s, '\n'); }
      ParseLines(parts + [[]], stamp);
    == { ParseLinesAppend(parts, [[]], stamp); ParseEmptyLine(stamp); }
      ParseLines(parts, stamp) + [];
    == { AppendEmpty(ParseLines(parts, stamp)); }
      ParseLines(parts, stamp);
    }
  }

  /** A trailing whitespace character other than a newline joins the last line. */
  lemma ParseSplitSnocBlank(s: string, c: char, stamp: string)
    requires IsSpace(c) && c != '\n'
    ensures ParseLines(Split(s + [c], '\n'), stamp) == ParseLines(Split(s, '\n'), stamp)
  {
    SplitSnocOther(s, c, '\n');
    ParseGrowLast(Split(s, '\n'), c, stamp);
  }

  /** Whitespace appended to the last line changes no record. */
  lemma ParseGrowLast(lines: seq<string>, c: char, stamp: string)
    requires lines != [] && IsSpace(c)
    ensures ParseLines(GrowLast(lines, c), stamp) == ParseLines(lines, stamp)
  {
    var n := |lines|;
    var init := lines[..n - 1];
    var last := lines[n - 1];
    calc {
      ParseLines(GrowLast(lines, c), stamp);
    ==
      ParseLines(init + [last + [c]], stamp);
    == { ParseLinesAppend(init, [last + [c]], stamp); }
      ParseLines(init, stamp) + ParseLines([last + [c]], stamp);
    == { ParseLineTrailingSpace(last, c, stamp); }
      ParseLines(init, stamp) + ParseLines([last], stamp);
    == { ParseLinesAppend(init, [last], stamp); InitLast(lines); }
      ParseLines(lines, stamp);
    }
  }

  /** A whitespace character at the end of a line changes nothing. */
  lemma ParseLineTrailingSpace(line: string, c: char, stamp: string)
    requires IsSpace(c)
    ensures ParseLines([line + [c]], stamp) == ParseLines([line], stamp)
  {
    calc {
      ParseLines([line + [c]], stamp);
    == { ParseOneLine(line + [c], stamp); }
      AsSeq(LineRecord(line + [c], stamp));
    == { TokensTrailingSpace(line, [c]); LineRecordByTokens(line + [c], line, stamp); }
      AsSeq(LineRecord(line, stamp));
    == { ParseOneLine(line, stamp); }
      ParseLines([line], stamp);
    }
  }

  /** A single line yields its own record, if any. */
  lemma ParseOneLine(line: string, stamp: string)
    ensures ParseLines([line], stamp) == AsSeq(LineRecord(line, stamp))
  {
    ConsParts(line, []);
    AppendEmpty(AsSeq(LineRecord(line, stamp)));
  }

  /** Leading whitespace of the body changes no record. */
  lemma {:induction false} ParseIgnoresLeadingSpace(s: string, stamp: string)
    ensures ParseLines(Split(TrimStart(s), '\n'), stamp) == ParseLines(Split(s, '\n'), stamp)
    decreases |s|
  {
    if s != [] && IsSpace(s[0]) {
      calc {
        ParseLines(Split(TrimStart(s), '\n'), stamp);
      == { assert TrimStart(s) == TrimStart(s[1..]); }
        ParseLines(Split(TrimStart(s[1..]), '\n'), stamp);
      == { ParseIgnoresLeadingSpace(s[1..], stamp); }
        ParseLines(Split(s[1..], '\n'), stamp);
      == { ParseSplitConsSpace(s[0], s[1..], stamp); HeadTail(s); }
        ParseLines(Split(s, '\n'), stamp);
      }
    } else {
      assert TrimStart(s) == s;
    }
  }

  /** Trailing whitespace of the body changes no record. */
  lemma {:induction false} ParseIgnoresTrailingSpace(x: string, sp: string, stamp: string)
    requires AllSpace(sp)
    ensures ParseLines(Split(x + sp, '\n'), stamp) == ParseLines(Split(x, '\n'), stamp)
    decreases |sp|
  {
    if sp == [] {
      assert x + sp == x;
    } else {
      var init := sp[..|sp| - 1];
      assert x + sp == (x + init) + [sp[|sp| - 1]];
      ParseSplitSnocSpace(x + init, sp[|sp| - 1], stamp);
      ParseIgnoresTrailingSpace(x, init, stamp);
    }
  }

  /** Stripping the whole body before splitting it into lines changes no record. */
  lemma ParseTextIgnoresStrip(text: string, stamp: string)
    ensures ParseText(text, stamp) == ParseLines(Split(text, '\n'), stamp)
  {
    var t := TrimStart(text);
    var e := TrimEnd(t);
    Reassemble(t, |e|);
    ParseIgnoresTrailingSpace(e, t[|e|..], stamp);
    ParseIgnoresLeadingSpace(text, stamp);
  }

  /**
   * A text submission always succeeds; it appends, in input order, exactly
   * the records of the lines the parser accepts, leaving every earlier
   * record in place as a prefix of the new store.
   */
  lemma TextIngest(store: seq<Event>, json: Option<Json>, text: string, stamp: string)
    ensures var r := AddEvents(store, Submission(TextContentType, json, text), stamp);
      var accepted := Select(Split(text, '\n'), IsEventLine);
      && r.outcome == Success(LineEvents(accepted, stamp))
      && r.store == store + LineEvents(accepted, stamp)
      && |r.store| == |store| + |accepted|
      && r.store[..|store|] == store
  {
    ParseTextIgnoresStrip(text, stamp);
    ParseLinesSelects(Split(text, '\n'), stamp);
    var r := AddEvents(store, Submission(TextContentType, json, text), stamp);
    assert r.store[..|store|] == store;
  }

  // ---------------------------------------------------------------------------
  // Writing a text body and reading it back

  /** A row of the text format: whitespace-free words. */
  predicate IsRow(row: seq<string>) {
    forall k :: 0 <= k < |row| ==> IsWord(row[k])
  }

  /** A row the parser accepts: at least three words. */
  predicate IsLongRow(row: seq<string>) {
    |row| >= 3
  }

  /** Each row written as one line, its words separated by single spaces. */
  function RenderLines(rows: seq<seq<string>>): (lines: seq<string>)
    ensures |lines| == |rows|
  {
    seq(|rows|, i requires 0 <= i < |rows| => Join(rows[i], " "))
  }

  /** A text body holding the rows, one per line. */
  function RenderText(rows: seq<seq<string>>): string {
    Join(RenderLines(rows), "\n")
  }

  /** The records expected from long rows: one per row, built from its first three words. */
  function RowEvents(rows: seq<seq<string>>, stamp: string): (r: seq<Event>)
    requires forall i :: 0 <= i < |rows| ==> IsLongRow(rows[i])
    ensures |r| == |rows|
    decreases |rows|
  {
    if rows == [] then []
    else
      assert IsLongRow(rows[0]);
      [TextEvent(rows[0][0], rows[0][1], rows[0][2], stamp)] + RowEvents(rows[1..], stamp)
  }

  lemma RowEventsCons(row: seq<string>, rows: seq<seq<string>>, stamp: string)
    requires IsLongRow(row)
    requires forall i :: 0 <= i < |rows| ==> IsLongRow(rows[i])
    ensures RowEvents([row] + rows, stamp) == [TextEvent(row[0], row[1], row[2], stamp)] + RowEvents(rows, stamp)
  {
    ConsParts(row, rows);
  }

  /** Each rendered line yields the record of its row when the row is long, and nothing otherwise. */
  lemma RenderedLineRecord(row: seq<string>, stamp: string)
    requires IsRow(row)
    ensures LineRecord(Join(row, " "), stamp) ==
      if IsLongRow(row) then Some(TextEvent(row[0], row[1], row[2], stamp)) else None
  {
    TokensOfJoin(row);
    LineRecordCases(Join(row, " "), stamp);
  }

  lemma {:induction false} ParseRenderedLines(rows: seq<seq<string>>, stamp: string)
    requires forall i :: 0 <= i < |rows| ==> IsRow(rows[i])
    ensures ParseLines(RenderLines(rows), stamp) == RowEvents(Select(rows, IsLongRow), stamp)
    decreases |rows|
  {
    if rows != [] {
      var lines := RenderLines(rows);
      assert lines[1..] == RenderLines(rows[1..]);
      var first := AsSeq(LineRecord(lines[0], stamp));
      assert ParseLines(lines, stamp) == first + ParseLines(lines[1..], stamp);
      ParseRenderedLines(rows[1..], stamp);
      RenderedLineRecord(rows[0], stamp);
      var sel := Select(rows, IsLongRow);
      var rest := Select(rows[1..], IsLongRow);
      if IsLongRow(rows[0]) {
        assert sel == [rows[0]] + rest;
        RowEventsCons(rows[0], rest, stamp);
      } else {
        assert sel == rest;
      }
    }
  }

  /**
   * Writing rows of words as a text body and submitting it appends one
   * record per row of at least three words, built from its first three
   * words, in row order; shorter rows (and empty ones) add nothing.
   */
  lemma TextRoundTrip(rows: seq<seq<string>>, stamp: string)
    requires forall i :: 0 <= i < |rows| ==> IsRow(rows[i])
    ensures ParseText(RenderText(rows), stamp) == RowEvents(Select(rows, IsLongRow), stamp)
  {
    var lines := RenderLines(rows);
    if rows == [] {
      calc {
        ParseText(RenderText(rows), stamp);
      == { assert RenderText(rows) == []; assert Split(Strip([]), '\n') == [[]]; }
        ParseLines([[]], stamp);
      == { ParseEmptyLine(stamp); }
        [];
      }
    } else {
      calc {
        ParseText(RenderText(rows), stamp);
      == { ParseTextIgnoresStrip(RenderText(rows), stamp); }
        ParseLines(Split(Join(lines, "\n"), '\n'), stamp);
      == { RenderedLinesUnbroken(rows); SplitJoin(lines, '\n'); }
        ParseLines(lines, stamp);
      == { ParseRenderedLines(rows, stamp); }
        RowEvents(Select(rows, IsLongRow), stamp);
      }
    }
  }

  /** No rendered line contains a line break. */
  lemma RenderedLinesUnbroken(rows: seq<seq<string>>)
    requires forall i :: 0 <= i < |rows| ==> IsRow(rows[i])
    ensures forall k :: 0 <= k < |RenderLines(rows)| ==> '\n' !in RenderLines(rows)[k]
  {
    forall k | 0 <= k < |rows|
      ensures '\n' !in RenderLines(rows)[k]
    {
      NoNewlineInJoin(rows[k]);
    }
  }

  // ---------------------------------------------------------------------------
  // Worked examples

  /** A batch with one complete object and one object lacking keys stores only the first. */
  lemma ExampleBatch(stamp: string)
    ensures var complete := map[UserIdKey := JStr("u1"), EventTypeKey := JStr("click"),
                                EventTimestampKey := JStr("2024-01-01T00:00:00")];
      var partial := map[EventTypeKey := JStr("view")];
      var r := AddEvents([], Submission(JsonContentType, Some(JArray([JObject(complete), JObject(partial)])), ""), stamp);
      && r.outcome.Success?
      && r.outcome.value == [StampObject(complete, stamp)]
      && r.store == r.outcome.value
  {
    var complete := map[UserIdKey := JStr("u1"), EventTypeKey := JStr("click"),
                        EventTimestampKey := JStr("2024-01-01T00:00:00")];
    var partial := map[EventTypeKey := JStr("view")];
    assert UserIdKey !in partial;
    assert HasAllKeys(JObject(partial)) == Some(false);
    assert Admit(JObject(partial), stamp) == Success(None);
    assert [JObject(partial)][1..] == [];
    assert AdmitBatch([], stamp).Success? && AdmitBatch([], stamp).value == [];
    assert AdmitBatch([JObject(partial)], stamp).Success? && AdmitBatch([JObject(partial)], stamp).value == [];
    assert HasRequiredKeys(complete);
    assert Admit(JObject(complete), stamp) == Success(Some(StampObject(complete, stamp)));
    assert [JObject(complete), JObject(partial)][1..] == [JObject(partial)];
  }

  /** The rows of the text example. */
  const ExampleRows: seq<seq<string>> := [["u2", "login", "1700"], ["badline"]]

  lemma ExampleRowsAreRows()
    ensures forall i :: 0 <= i < |ExampleRows| ==> IsRow(ExampleRows[i])
  {
    assert IsRow(ExampleRows[0]);
    assert IsRow(ExampleRows[1]);
  }

  lemma ExampleRowsWritten()
    ensures RenderText(ExampleRows) == "u2 login 1700\nbadline"
  {
    var rows := ExampleRows;
    assert RenderLines(rows) == ["u2 login 1700", "badline"] by {
      var ws := rows[0];
      assert Join(ws[2..], " ") == "1700";
      assert Join(ws[1..], " ") == "login" + " " + "1700";
      assert Join(ws, " ") == "u2 login 1700";
      assert Join(rows[1], " ") == "badline";
    }
    assert Join(RenderLines(rows)[1..], "\n") == "badline";
  }

  lemma ExampleRowsSelected(stamp: string)
    ensures RowEvents(Select(ExampleRows, IsLongRow), stamp) == [TextEvent("u2", "login", "1700", stamp)]
  {
    var rows := ExampleRows;
    assert Select(rows[1..][1..], IsLongRow) == [];
    assert Select(rows[1..], IsLongRow) == [];
    assert Select(rows, IsLongRow) == [rows[0]];
  }

  /** A text body with one three-token line and one one-token line stores only the first. */
  lemma ExampleText(stamp: string)
    ensures var r := AddEvents([], Submission(TextContentType, None, "u2 login 1700\nbadline"), stamp);
      && r.outcome.Success?
      && r.outcome.value == [TextEvent("u2", "login", "1700", stamp)]
  {
    ExampleRowsAreRows();
    ExampleRowsWritten();
    TextRoundTrip(ExampleRows, stamp);
    ExampleRowsSelected(stamp);
  }
}
