/**
 * The read side (`app/dashboard/routes.py`): the display timestamp, the
 * message templates, and `get_events`, which maps the newest stored
 * documents to views. It reads the records the receiver writes, so the
 * properties linking both sides live here.
 */
module Dashboard {
  import opened Wrappers
  import opened Text
  import opened IsoTime
  import opened EventStore
  import opened Webhook

  const UNKNOWN_TIME := "unknown time"

  /** `limit(50)` in `get_events`. */
  const EVENTS_LIMIT: nat := 50

  // ---------------------------------------------------------------------------
  // _format_timestamp_for_display

  /** The day's suffix as `_format_timestamp_for_display` chooses it. */
  function OrdinalSuffix(day: nat): (suffix: string)
    ensures suffix in {"st", "nd", "rd", "th"}
  {
    if 4 <= day <= 20 || 24 <= day <= 30 then "th"
    else if day % 10 == 1 then "st"
    else if day % 10 == 2 then "nd"
    else if day % 10 == 3 then "rd"
    else "th"
  }

  /** The English rule for any number: 11, 12 and 13 end in "th", the rest follow the last digit. */
  function EnglishOrdinalSuffix(n: nat): string {
    if 11 <= n % 100 <= 13 then "th"
    else if n % 10 == 1 then "st"
    else if n % 10 == 2 then "nd"
    else if n % 10 == 3 then "rd"
    else "th"
  }

  lemma OrdinalSuffixOfDays(day: nat)
    requires 1 <= day <= 31
    ensures OrdinalSuffix(day) == "st" <==> day == 1 || day == 21 || day == 31
    ensures OrdinalSuffix(day) == "nd" <==> day == 2 || day == 22
    ensures OrdinalSuffix(day) == "rd" <==> day == 3 || day == 23
    ensures OrdinalSuffix(day) == "th" <==> !(day == 1 || day == 21 || day == 31 || day == 2 || day == 22 || day == 3 || day == 23)
    ensures OrdinalSuffix(day) == EnglishOrdinalSuffix(day)
  {
  }

  /** `%B` in the C locale. */
  function MonthName(month: nat): (name: string)
    requires 1 <= month <= 12
    ensures 3 <= |name|
  {
    ["January", "February", "March", "April", "May", "June", "July",
     "August", "September", "October", "November", "December"][month - 1]
  }

  /** `int(dt.strftime("%I"))` */
  function Hour12(hour: nat): (h: nat)
    ensures 1 <= h <= 12 && h % 12 == hour % 12
  {
    if hour % 12 == 0 then 12 else hour % 12
  }

  /** `dt.strftime("%p")` in the C locale. */
  function Meridiem(hour: nat): (m: string)
    ensures m == "AM" || m == "PM"
    ensures m == "AM" <==> hour < 12
  {
    if hour < 12 then "AM" else "PM"
  }

  /** Reading a 12-hour clock back into the hour of the day. */
  function FromTwelveHour(hour12: nat, meridiem: string): nat {
    hour12 % 12 + (if meridiem == "PM" then 12 else 0)
  }

  /** Different months have different names. */
  lemma MonthNameInjective(a: nat, b: nat)
    requires 1 <= a <= 12 && 1 <= b <= 12
    ensures MonthName(a) == MonthName(b) ==> a == b
  {
  }

  lemma TwelveHourClock(hour: nat)
    requires hour < 24
    ensures 1 <= Hour12(hour) <= 12
    ensures hour == 0 ==> Hour12(hour) == 12 && Meridiem(hour) == "AM"
    ensures 1 <= hour <= 11 ==> Hour12(hour) == hour && Meridiem(hour) == "AM"
    ensures hour == 12 ==> Hour12(hour) == 12 && Meridiem(hour) == "PM"
    ensures 13 <= hour ==> Hour12(hour) == hour - 12 && Meridiem(hour) == "PM"
    ensures FromTwelveHour(Hour12(hour), Meridiem(hour)) == hour
  {
  }

  /** `"<d><suffix> <Month> <Year> - <h>:<mm> <AM|PM> UTC"` from the wall-clock fields. */
  function Render(dt: DateTime): (r: string)
    requires Valid(dt)
    ensures var date := Decimal(dt.day) + OrdinalSuffix(dt.day) + " ";
      |date| + 4 <= |r| && r[..|date|] == date && r[|r| - 4..] == " UTC"
  {
    Decimal(dt.day) + OrdinalSuffix(dt.day) + " " + MonthName(dt.month) + " " + Pad4(dt.year) +
    " - " + Decimal(Hour12(dt.hour)) + ":" + Pad2(dt.minute) + " " + Meridiem(dt.hour) + " UTC"
  }

  /**
   * `_format_timestamp_for_display(ts)`: "unknown time" for "", the rendering
   * of a parsable date-time (whatever its offset; "UTC" is appended as text),
   * the input itself otherwise.
   */
  function DisplayTimestamp(ts: string): (r: string)
    ensures ts == "" ==> r == UNKNOWN_TIME
    ensures ts != "" && ParseTimestamp(ts).None? ==> r == ts
    ensures ParseTimestamp(ts).Some? ==> r == Render(ParseTimestamp(ts).value)
  {
    if ts == "" then UNKNOWN_TIME
    else match ParseTimestamp(ts)
      case None => ts
      case Some(dt) => Render(dt)
  }

  /** Canonicalising a timestamp before storing it does not change how it is displayed. */
  lemma DisplayOfCanonicalised(s: string)
    ensures DisplayTimestamp(Canonicalise(s)) == DisplayTimestamp(s)
  {
    if s != "" && ParseTimestamp(s).Some? {
      var dt := ParseTimestamp(s).value;
      assert Render(WallClock(dt)) == Render(dt);
    }
  }

  lemma RenderExampleFields()
    ensures Pad4(2021) == "2021" && Decimal(1) == "1" && Decimal(9) == "9" && Pad2(30) == "30"
    ensures OrdinalSuffix(1) == "st" && MonthName(4) == "April" && Hour12(21) == 9 && Meridiem(21) == "PM"
  {
    assert Pad4(2021) == "2021" by { assert Pad4(2021) == Pad2(20) + Pad2(2021); }
  }

  lemma RenderExample()
    ensures Render(DateTime(2021, 4, 1, 21, 30, 0, "", UTC)) == "1st April 2021 - 9:30 PM UTC"
  {
    RenderExampleFields();
  }

  lemma ParseExample()
    ensures ParseTimestamp("2021-04-01T21:30:00Z") == Some(DateTime(2021, 4, 1, 21, 30, 0, "", UTC))
  {
    var dt := DateTime(2021, 4, 1, 21, 30, 0, "", UTC);
    ExampleWallClock();
    assert CanonicalText(dt) == "2021-04-01T21:30:00Z";
    CanonicalTextParses(dt);
    assert WallClock(dt) == dt;
  }

  /** The documented example `"2021-04-01T21:30:00Z"`, as stored and as received. */
  lemma DisplayExample()
    ensures DisplayTimestamp("2021-04-01T21:30:00Z") == "1st April 2021 - 9:30 PM UTC"
    ensures DisplayTimestamp(Canonicalise("2021-04-01T21:30:00Z")) == "1st April 2021 - 9:30 PM UTC"
  {
    ParseExample();
    RenderExample();
    DisplayOfCanonicalised("2021-04-01T21:30:00Z");
  }

  // ---------------------------------------------------------------------------
  // _format_event_message

  /** `event.get(key, default)` on a stored document. */
  function Lookup(fields: Fields, key: string, default: string): string {
    if key in fields then fields[key] else default
  }

  function Quoted(s: string): string {
    "\"" + s + "\""
  }

  function Author(fields: Fields): string {
    Lookup(fields, "author", "Unknown")
  }

  function ActionOf(fields: Fields): string {
    Lookup(fields, "action", "")
  }

  function WhenText(fields: Fields): string {
    DisplayTimestamp(Lookup(fields, "timestamp", ""))
  }

  /** The phrase of the template for an action the dashboard does not know. */
  function GenericPhrase(action: string): string {
    " performed action " + Quoted(action)
  }

  /** What the sentence says between the quoted author and the time: one phrase per action. */
  function ActionPhrase(fields: Fields): string {
    var action := ActionOf(fields);
    var from, to := Quoted(Lookup(fields, "from_branch", "")), Quoted(Lookup(fields, "to_branch", ""));
    if action == ACTION_PUSH then " pushed to " + to
    else if action == ACTION_PULL_REQUEST then " submitted a pull request from " + from + " to " + to
    else if action == ACTION_MERGE then " merged branch " + from + " to " + to
    else GenericPhrase(action)
  }

  /** Every template: the quoted author, a phrase, and `on` with the display time. */
  function Sentence(fields: Fields, phrase: string): string {
    Quoted(Author(fields)) + phrase + (" on " + WhenText(fields))
  }

  /** A sentence splits back into its author, its phrase and its time. */
  lemma SentenceParts(fields: Fields, phrase: string)
    ensures var m, author, when := Sentence(fields, phrase), Quoted(Author(fields)), " on " + WhenText(fields);
      |m| == |author| + |phrase| + |when| &&
      m[..|author|] == author && m[|author|..|m| - |when|] == phrase && m[|m| - |when|..] == when
  {
    var author, when := Quoted(Author(fields)), " on " + WhenText(fields);
    assert (author + phrase + when)[|author|..|author| + |phrase|] == phrase;
    assert (author + phrase + when)[|author| + |phrase|..] == when;
  }

  /** The sentence of a document determines the phrase in it. */
  lemma SentenceInjective(fields: Fields, p: string, q: string)
    ensures Sentence(fields, p) == Sentence(fields, q) <==> p == q
  {
    SentenceParts(fields, p);
    SentenceParts(fields, q);
  }

  /** The fallback template, as the source writes it for any other action. */
  function FallbackMessage(fields: Fields): string {
    Sentence(fields, GenericPhrase(ActionOf(fields)))
  }

  /**
   * `_format_event_message(event)`: the quoted author, the phrase of the
   * action (the generic one for any other action) and the display time.
   */
  function FormatMessage(fields: Fields): (m: string)
    ensures var author, when := Quoted(Author(fields)), " on " + WhenText(fields);
      |author| + |when| <= |m| && m[..|author|] == author && m[|m| - |when|..] == when
  {
    SentenceParts(fields, ActionPhrase(fields));
    Sentence(fields, ActionPhrase(fields))
  }

  /** The three known phrases differ from the generic one. */
  lemma KnownPhraseOnlyForKnownAction(fields: Fields)
    ensures ActionPhrase(fields) == GenericPhrase(ActionOf(fields)) <==> !HasKnownAction(fields)
  {
    var p, g := ActionPhrase(fields), GenericPhrase(ActionOf(fields));
    assert g[1] == 'p' && g[2] == 'e';
    if ActionOf(fields) == ACTION_PUSH {
      assert p[2] == 'u';
    } else if ActionOf(fields) == ACTION_PULL_REQUEST {
      assert p[1] == 's';
    } else if ActionOf(fields) == ACTION_MERGE {
      assert p[1] == 'm';
    }
  }

  /** The fallback sentence is produced exactly for documents without one of the three actions. */
  lemma FallbackOnlyForUnknownAction(fields: Fields)
    ensures FormatMessage(fields) == FallbackMessage(fields) <==> !HasKnownAction(fields)
  {
    SentenceInjective(fields, ActionPhrase(fields), GenericPhrase(ActionOf(fields)));
    KnownPhraseOnlyForKnownAction(fields);
  }

  /** The phrase for each kind of record the receiver stores. */
  lemma RecordPhrase(r: Record)
    ensures ActionPhrase(RecordFields(r)) ==
      match r.action
      case Push => " pushed to " + Quoted(r.toBranch)
      case PullRequest => " submitted a pull request from " + Quoted(r.fromBranch) + " to " + Quoted(r.toBranch)
      case Merge => " merged branch " + Quoted(r.fromBranch) + " to " + Quoted(r.toBranch)
  {
  }

  /** The sentence for each kind of record the receiver stores. */
  lemma RecordMessage(r: Record)
    ensures var when := DisplayTimestamp(r.timestamp);
      FormatMessage(RecordFields(r)) ==
        match r.action
        case Push => Quoted(r.author) + " pushed to " + Quoted(r.toBranch) + " on " + when
        case PullRequest =>
          Quoted(r.author) + " submitted a pull request from " + Quoted(r.fromBranch) +
          " to " + Quoted(r.toBranch) + " on " + when
        case Merge =>
          Quoted(r.author) + " merged branch " + Quoted(r.fromBranch) + " to " + Quoted(r.toBranch) + " on " + when
  {
    var author, from, to := Quoted(r.author), Quoted(r.fromBranch), Quoted(r.toBranch);
    var when := DisplayTimestamp(r.timestamp);
    RecordSentence(r);
    RecordPhrase(r);
    match r.action
    case Push => Regroup(author, " pushed to ", to, "", "", " on " + when);
    case PullRequest => Regroup(author, " submitted a pull request from ", from, " to ", to, " on " + when);
    case Merge => Regroup(author, " merged branch ", from, " to ", to, " on " + when);
  }

  lemma Regroup(a: string, b: string, c: string, d: string, e: string, f: string)
    ensures a + (b + c + d + e) + f == a + b + c + d + e + f
  {
  }

  lemma RecordSentence(r: Record)
    ensures FormatMessage(RecordFields(r)) ==
      Quoted(r.author) + ActionPhrase(RecordFields(r)) + (" on " + DisplayTimestamp(r.timestamp))
  {
    var f := RecordFields(r);
    var author, phrase, when := Quoted(r.author), ActionPhrase(f), DisplayTimestamp(r.timestamp);
    assert WhenText(f) == when && Author(f) == r.author;
    assert FormatMessage(f) == author + phrase + (" on " + when);
  }

  /** Every record the receiver can insert is shown with its own template, never the fallback. */
  lemma IngestedNeverFallsBack(header: string, data: map<string, Json.Json>)
    requires IngestOk(Classify(header, data), data)
    requires Ingest(Classify(header, data), data).Some?
    ensures var fields := RecordFields(Ingest(Classify(header, data), data).value);
      FormatMessage(fields) != FallbackMessage(fields)
  {
    FallbackOnlyForUnknownAction(RecordFields(Ingest(Classify(header, data), data).value));
  }

  // ---------------------------------------------------------------------------
  // get_events

  /** One entry of the `events` list `get_events` returns. */
  datatype View = View(
    id: string, requestId: string, author: string, action: string,
    fromBranch: string, toBranch: string, timestamp: string,
    formattedTimestamp: string, displayMessage: string)

  /** The view of one stored document, with the defaults of `event.get`. */
  function ViewOf(d: Document): (v: View)
    ensures v.formattedTimestamp == DisplayTimestamp(v.timestamp)
    ensures v.displayMessage == FormatMessage(d.fields)
    ensures "timestamp" !in d.fields ==> v.timestamp == "" && v.formattedTimestamp == UNKNOWN_TIME
    ensures v.author == Author(d.fields)
  {
    var f := d.fields;
    View(
      id := Decimal(d.id),
      requestId := Lookup(f, "request_id", ""),
      author := Author(f),
      action := ActionOf(f),
      fromBranch := Lookup(f, "from_branch", ""),
      toBranch := Lookup(f, "to_branch", ""),
      timestamp := Lookup(f, "timestamp", ""),
      formattedTimestamp := DisplayTimestamp(Lookup(f, "timestamp", "")),
      displayMessage := FormatMessage(f))
  }

  // A step of EmptyDocumentDefaults.
  lemma EmptyDocumentFallsBack()
    ensures FormatMessage(map[]) == FallbackMessage(map[])
  {
    var f: Fields := map[];
    assert ActionOf(f) == "";
  }

  // A step of EmptyDocumentDefaults.
  lemma EmptyDocumentFallbackPieces()
    ensures FallbackMessage(map[]) == Quoted("Unknown") + " performed action " + Quoted("") + " on " + UNKNOWN_TIME
  {
    var f: Fields := map[];
    assert Author(f) == "Unknown" && ActionOf(f) == "";
    assert WhenText(f) == UNKNOWN_TIME;
  }

  // A step of EmptyDocumentDefaults.
  lemma EmptyDocumentFallbackText()
    ensures FallbackMessage(map[]) == "\"Unknown\"" + " performed action " + "\"\"" + " on " + "unknown time"
  {
    EmptyDocumentFallbackPieces();
    assert Quoted("Unknown") == "\"Unknown\"";
    assert Quoted("") == "\"\"";
  }

  // A step of EmptyDocumentDefaults.
  lemma EmptyDocumentMessage()
    ensures FormatMessage(map[]) == "\"Unknown\"" + " performed action " + "\"\"" + " on " + "unknown time"
  {
    EmptyDocumentFallsBack();
    EmptyDocumentFallbackText();
  }

  /** A document with none of the fields is shown with every default. */
  lemma EmptyDocumentDefaults(id: nat)
    ensures ViewOf(Document(id, map[])) ==
      View(Decimal(id), "", "Unknown", "", "", "", "", UNKNOWN_TIME,
           "\"Unknown\"" + " performed action " + "\"\"" + " on " + "unknown time")
  {
    EmptyDocumentMessage();
  }

  /** Views of newest-first documents carry their timestamps in descending order. */
  lemma ViewsNewestFirst(docs: seq<Document>, i: nat, j: nat)
    requires NewestFirst(docs) && i < j < |docs|
    ensures StringLe(ViewOf(docs[j]).timestamp, ViewOf(docs[i]).timestamp)
  {
  }

  /**
   * Views taken one by one from newest-first documents drawn from `docs`
   * keep the descending timestamp order, and none of them falls back to the
   * generic template when every document of `docs` has a known action.
   */
  lemma ViewsOfNewestFirst(docs: seq<Document>, events: seq<Document>, views: seq<View>)
    requires NewestFirst(events) && multiset(events) <= multiset(docs)
    requires |views| == |events| && forall i :: 0 <= i < |events| ==> views[i] == ViewOf(events[i])
    ensures forall i, j :: 0 <= i < j < |views| ==> StringLe(views[j].timestamp, views[i].timestamp)
    ensures (forall d :: d in docs ==> HasKnownAction(d.fields)) ==>
      forall i :: 0 <= i < |views| ==> views[i].displayMessage != FallbackMessage(events[i].fields)
  {
    forall i, j | 0 <= i < j < |views|
      ensures StringLe(views[j].timestamp, views[i].timestamp)
    {
      ViewsNewestFirst(events, i, j);
    }
    if forall d :: d in docs ==> HasKnownAction(d.fields) {
      forall i | 0 <= i < |events|
        ensures views[i].displayMessage != FallbackMessage(events[i].fields)
      {
        assert events[i] in multiset(docs);
        FallbackOnlyForUnknownAction(events[i].fields);
      }
    }
  }

  /** What `get_events` answers. */
  datatype EventsResponse = Failure(error: string) | Events(views: seq<View>)

  function Status(resp: EventsResponse): nat {
    if resp.Failure? then 500 else 200
  }

  /** The `error` of the 500 answer. */
  const DATABASE_NOT_AVAILABLE := "Database not available"

  /** The loop of `get_events` that turns each document into its view, in order. */
  method FormatEvents(events: seq<Document>) returns (formatted: seq<View>)
    ensures |formatted| == |events|
    ensures forall i :: 0 <= i < |events| ==> formatted[i] == ViewOf(events[i])
  {
    formatted := [];
    for k := 0 to |events|
      invariant |formatted| == k
      invariant forall i :: 0 <= i < k ==> formatted[i] == ViewOf(events[i])
    {
      formatted := formatted + [ViewOf(events[k])];
    }
  }

  /**
   * `get_events()`: 500 without a database; otherwise one view per document
   * of the bounded, newest-first query, in the query's order.
   */
  method GetEvents(db: Store?) returns (resp: EventsResponse)
    ensures db == null <==> resp == Failure(DATABASE_NOT_AVAILABLE)
    ensures Status(resp) == if db == null then 500 else 200
    ensures db != null ==>
      var events := db.Latest(EVENTS_LIMIT);
      |resp.views| == |events| && forall i :: 0 <= i < |events| ==> resp.views[i] == ViewOf(events[i])
    ensures db != null ==> |resp.views| <= EVENTS_LIMIT && (|db.docs| <= EVENTS_LIMIT ==> |resp.views| == |db.docs|)
    ensures db != null ==>
      forall i, j :: 0 <= i < j < |resp.views| ==> StringLe(resp.views[j].timestamp, resp.views[i].timestamp)
    ensures db != null && (forall d :: d in db.docs ==> HasKnownAction(d.fields)) ==>
      forall i :: 0 <= i < |resp.views| ==>
        resp.views[i].displayMessage != FallbackMessage(db.Latest(EVENTS_LIMIT)[i].fields)
  {
    if db == null {
      return Failure(DATABASE_NOT_AVAILABLE);
    }
    var events := db.Latest(EVENTS_LIMIT);
    assert |events| <= EVENTS_LIMIT && (|db.docs| <= EVENTS_LIMIT ==> |events| == |db.docs|);
    var formatted := FormatEvents(events);
    ViewsOfNewestFirst(db.docs, events, formatted);
    return Events(formatted);
  }
}
