/**
 * The ingest side (`app/webhook/routes.py`): the timestamp canonicaliser, the
 * event classifier, the push and pull-request extractors, and the receiver
 * that stores at most one record per call.
 */
module Webhook {
  import opened Wrappers
  import opened Text
  import opened Json
  import opened IsoTime
  import opened EventStore

  /** The values of a record's `action` field. */
  const ACTION_PUSH := "PUSH"
  const ACTION_PULL_REQUEST := "PULL_REQUEST"
  const ACTION_MERGE := "MERGE"

  /** The prefix of a branch ref; other refs (tags) are not stored. */
  const BRANCH_REF_PREFIX := "refs/heads/"

  datatype Action = Push | PullRequest | Merge

  function ActionName(action: Action): (name: string)
    ensures name == ACTION_PUSH || name == ACTION_PULL_REQUEST || name == ACTION_MERGE
  {
    match action
    case Push => ACTION_PUSH
    case PullRequest => ACTION_PULL_REQUEST
    case Merge => ACTION_MERGE
  }

  lemma ActionNameInjective(a: Action, b: Action)
    ensures ActionName(a) == ActionName(b) ==> a == b
  {
  }

  /** The document the receiver builds before `insert_one`. */
  datatype Record = Record(
    requestId: string, author: string, action: Action,
    fromBranch: string, toBranch: string, timestamp: string)

  function RecordFields(r: Record): (f: Fields)
    ensures f.Keys == {"request_id", "author", "action", "from_branch", "to_branch", "timestamp"}
    ensures HasKnownAction(f)
  {
    map["request_id" := r.requestId, "author" := r.author, "action" := ActionName(r.action),
        "from_branch" := r.fromBranch, "to_branch" := r.toBranch, "timestamp" := r.timestamp]
  }

  /** The `action` field holds one of the three values the receiver writes. */
  predicate HasKnownAction(f: Fields) {
    "action" in f && (f["action"] == ACTION_PUSH || f["action"] == ACTION_PULL_REQUEST || f["action"] == ACTION_MERGE)
  }

  // ---------------------------------------------------------------------------
  // _timestamp_to_utc_datetime_string

  /** `dt.strftime("%Y-%m-%dT%H:%M:%SZ")`: the wall-clock fields and a literal `Z`. */
  function CanonicalText(dt: DateTime): (s: string)
    ensures IsCanonical(s)
  {
    WallClockTextShape(dt);
    WallClockText(dt) + "Z"
  }

  /** The shape `YYYY-MM-DDTHH:MM:SSZ`. */
  predicate IsCanonical(s: string) {
    |s| == 20 && WallClockShape(s[..19]) && s[19] == 'Z'
  }

  /** The canonical text reads back as the same wall clock, in UTC, without fraction. */
  lemma CanonicalTextParses(dt: DateTime)
    requires Valid(dt)
    ensures IsCanonical(CanonicalText(dt))
    ensures ParseTimestamp(CanonicalText(dt)) == Some(WallClock(dt))
  {
    var w := WallClockText(dt);
    WallClockTextShape(dt);
    assert CanonicalText(dt)[..19] == w;
    WallClockTextHasNoZ(dt);
    ReplaceCharAppend(w, "Z", 'Z', "+00:00");
    ReplaceCharAbsent(w, 'Z', "+00:00");
    assert ReplaceAll("Z", "Z", "+00:00") == "+00:00";
    assert ReplaceAll(CanonicalText(dt), "Z", "+00:00") == w + "+00:00";
    assert Print(WallClock(dt)) == w + "+00:00";
    PrintParse(WallClock(dt));
  }

  /**
   * `_timestamp_to_utc_datetime_string(s)` for a string: "" stays "", a parsable
   * date-time is rewritten with its wall-clock fields, its fraction and its
   * offset dropped (no conversion to UTC happens), anything else is returned
   * unchanged.
   */
  function Canonicalise(s: string): (r: string)
    ensures s == "" ==> r == ""
    ensures ParseTimestamp(s).None? ==> r == s
    ensures ParseTimestamp(s).Some? ==>
      IsCanonical(r) && ParseTimestamp(r) == Some(WallClock(ParseTimestamp(s).value))
  {
    if s == "" then ""
    else match ParseTimestamp(s)
      case None => s
      case Some(dt) =>
        CanonicalTextParses(dt);
        CanonicalText(dt)
  }

  lemma CanonicaliseIdempotent(s: string)
    ensures Canonicalise(Canonicalise(s)) == Canonicalise(s)
  {
    if s != "" && ParseTimestamp(s).Some? {
      var dt := ParseTimestamp(s).value;
      CanonicalTextParses(dt);
      assert CanonicalText(WallClock(dt)) == CanonicalText(dt);
    }
  }

  /**
   * Whatever fraction and offset a date-time of the grammar carries, the
   * canonical text keeps only its wall-clock fields: the offset is dropped,
   * not applied.
   */
  lemma CanonicalisePrinted(dt: DateTime)
    requires Valid(dt)
    ensures Canonicalise(Print(dt)) == CanonicalText(dt)
  {
    PrintHasNoZ(dt);
    ReplaceCharAbsent(Print(dt), 'Z', "+00:00");
    PrintParse(dt);
  }

  /** `"2021-04-01T21:30:00+05:30"` is stored as `"2021-04-01T21:30:00Z"`. */
  lemma OffsetIsDropped()
    ensures Canonicalise("2021-04-01T21:30:00+05:30") == "2021-04-01T21:30:00Z"
  {
    var dt := DateTime(2021, 4, 1, 21, 30, 0, "", Offset(false, 5, 30));
    ExampleWallClock();
    assert ZoneText(dt.zone) == "+05:30" by { assert Pad2(5) == "05" && Pad2(30) == "30"; }
    assert Print(dt) == "2021-04-01T21:30:00+05:30";
    CanonicalisePrinted(dt);
  }

  /** An offset's minutes are not bounded by 60 on their own: `+05:75` is read and dropped too. */
  lemma OffsetMinutesPastSixty()
    ensures Canonicalise("2021-04-01T21:30:00+05:75") == "2021-04-01T21:30:00Z"
  {
    var dt := DateTime(2021, 4, 1, 21, 30, 0, "", Offset(false, 5, 75));
    ExampleWallClock();
    assert ZoneText(dt.zone) == "+05:75" by { assert Pad2(5) == "05" && Pad2(75) == "75"; }
    assert Print(dt) == "2021-04-01T21:30:00+05:75";
    CanonicalisePrinted(dt);
  }

  /** `_timestamp_to_utc_datetime_string(v)` for a JSON value: falsy values give "". */
  function CanonicaliseValue(v: Json): (r: string)
    requires StringOrFalsy(v)
    ensures !Truthy(v) ==> r == ""
    ensures Canonicalise(r) == r
  {
    if !Truthy(v) then ""
    else
      CanonicaliseIdempotent(v.s);
      Canonicalise(v.s)
  }

  // ---------------------------------------------------------------------------
  // Classification

  /**
   * The event type: a non-empty header is kept as it is; only an empty one is
   * inferred from the payload, `push` (both `ref` and `commits`) before
   * `pull_request`.
   */
  function Classify(header: string, data: map<string, Json>): (event: string)
    ensures header != "" ==> event == header
    ensures header == "" ==> event == "push" || event == "pull_request" || event == ""
    ensures header == "" ==> (event == "push" <==> "ref" in data && "commits" in data)
    ensures event == "" <==>
      header == "" && !("ref" in data && "commits" in data) && "pull_request" !in data
  {
    if header != "" then header
    else if "ref" in data && "commits" in data then "push"
    else if "pull_request" in data then "pull_request"
    else ""
  }

  // ---------------------------------------------------------------------------
  // Fields shared by both event kinds

  /** `(data.get("sender") or {}).get("login")` can be evaluated and is a string if truthy. */
  predicate SenderLoginOk(data: map<string, Json>) {
    var sender := Get(data, "sender", Null);
    ObjectOrFalsy(sender) && StringOrFalsy(Get(AsObject(sender), "login", Null))
  }

  /** `(data.get("sender") or {}).get("login") or "Unknown"` */
  function SenderLogin(data: map<string, Json>): (login: string)
    requires SenderLoginOk(data)
    ensures login != ""
  {
    var login := Get(AsObject(Get(data, "sender", Null)), "login", Null);
    if Truthy(login) then login.s else "Unknown"
  }

  // ---------------------------------------------------------------------------
  // Push events

  /** The pusher's name is read first; the sender only when that name is falsy. */
  predicate PushAuthorOk(data: map<string, Json>) {
    var pusher := Get(data, "pusher", Null);
    ObjectOrFalsy(pusher) &&
    var name := Get(AsObject(pusher), "name", Null);
    StringOrFalsy(name) && (!Truthy(name) ==> SenderLoginOk(data))
  }

  /** `(data.get("pusher") or {}).get("name") or (data.get("sender") or {}).get("login") or "Unknown"` */
  function PushAuthor(data: map<string, Json>): (author: string)
    requires PushAuthorOk(data)
    ensures author != ""
  {
    var name := Get(AsObject(Get(data, "pusher", Null)), "name", Null);
    if Truthy(name) then name.s else SenderLogin(data)
  }

  /** The head commit's `id` is a string when present, and its timestamp can be read. */
  predicate HeadCommitOk(commit: map<string, Json>) {
    Get(commit, "id", Str("")).Str? &&
    var ts := Get(commit, "timestamp", Null);
    if Truthy(ts) then ts.Str?
    else
      var author := Get(commit, "author", Null);
      ObjectOrFalsy(author) && StringOrFalsy(Get(AsObject(author), "date", Null))
  }

  /** `head_commit.get("timestamp") or (head_commit.get("author") or {}).get("date")` */
  function HeadCommitTimestamp(commit: map<string, Json>): (v: Json)
    requires HeadCommitOk(commit)
    ensures StringOrFalsy(v)
  {
    var ts := Get(commit, "timestamp", Null);
    if Truthy(ts) then ts else Get(AsObject(Get(commit, "author", Null)), "date", Null)
  }

  /** `data.get("ref", "")` */
  function Ref(data: map<string, Json>): Json {
    Get(data, "ref", Str(""))
  }

  /** `data.get("head_commit")` */
  function HeadCommit(data: map<string, Json>): Json {
    Get(data, "head_commit", Null)
  }

  /**
   * The push payloads the handler processes without raising: a string `ref`,
   * and for a branch ref a head commit that is a dictionary or falsy, with
   * string-valued fields where they are read.
   */
  predicate PushOk(data: map<string, Json>) {
    Ref(data).Str? &&
    (StartsWith(Ref(data).s, BRANCH_REF_PREFIX) ==>
      ObjectOrFalsy(HeadCommit(data)) &&
      (Truthy(HeadCommit(data)) ==> PushAuthorOk(data) && HeadCommitOk(HeadCommit(data).fields)))
  }

  /** A stored record: a named author, a timestamp the canonicaliser leaves alone, no source branch for a push. */
  predicate ValidRecord(r: Record) {
    r.author != "" && Canonicalise(r.timestamp) == r.timestamp && (r.action == Push ==> r.fromBranch == "")
  }

  /** The push branch of `receiver`: the record it would insert, or `None` for an early return. */
  function ExtractPush(data: map<string, Json>): (r: Option<Record>)
    requires PushOk(data)
    ensures r.Some? <==> StartsWith(Ref(data).s, BRANCH_REF_PREFIX) && Truthy(HeadCommit(data))
    ensures r.Some? ==> ValidRecord(r.value) && r.value.action == Push && r.value.fromBranch == ""
    ensures r.Some? ==> r.value.author == PushAuthor(data)
    ensures r.Some? ==>
      r.value.toBranch == ReplaceAll(Ref(data).s[|BRANCH_REF_PREFIX|..], BRANCH_REF_PREFIX, "")
    ensures r.Some? ==> r.value.requestId == Get(HeadCommit(data).fields, "id", Str("")).s
    ensures r.Some? ==> r.value.timestamp == CanonicaliseValue(HeadCommitTimestamp(HeadCommit(data).fields))
  {
    var ref := Ref(data).s;
    if !StartsWith(ref, BRANCH_REF_PREFIX) then None
    else
      var commit := HeadCommit(data);
      if !Truthy(commit) then None
      else
        Some(Record(
          requestId := Get(commit.fields, "id", Str("")).s,
          author := PushAuthor(data),
          action := Push,
          fromBranch := "",
          toBranch := ReplaceAll(ref, BRANCH_REF_PREFIX, ""),
          timestamp := CanonicaliseValue(HeadCommitTimestamp(commit.fields))))
  }

  /** When nothing after the prefix looks like a branch ref again, the branch is the rest of the ref. */
  lemma PushBranchIsRefWithoutPrefix(ref: string)
    requires StartsWith(ref, BRANCH_REF_PREFIX)
    requires !Occurs(ref[|BRANCH_REF_PREFIX|..], BRANCH_REF_PREFIX)
    ensures ReplaceAll(ref, BRANCH_REF_PREFIX, "") == ref[|BRANCH_REF_PREFIX|..]
  {
    ReplaceAllAbsent(ref[|BRANCH_REF_PREFIX|..], BRANCH_REF_PREFIX, "");
  }

  /** Every occurrence of `refs/heads/` is removed, not only the leading one. */
  lemma PushBranchDropsInnerPrefix()
    ensures ReplaceAll("refs/heads/a/refs/heads/b", BRANCH_REF_PREFIX, "") == "a/b"
  {
    var p := BRANCH_REF_PREFIX;
    assert "refs/heads/a/refs/heads/b"[..11] == p;
    assert "refs/heads/a/refs/heads/b"[11..] == "a/refs/heads/b";
    assert "a/refs/heads/b"[..11][0] != p[0];
    assert "/refs/heads/b"[..11][0] != p[0];
    assert "refs/heads/b"[..11] == p;
    assert ReplaceAll("b", p, "") == "b";
  }

  // ---------------------------------------------------------------------------
  // Pull-request events

  /** `(pr.get(side) or {}).get("ref", "")` can be read and is a string. */
  predicate BranchRefOk(pr: map<string, Json>, side: string) {
    var s := Get(pr, side, Null);
    ObjectOrFalsy(s) && Get(AsObject(s), "ref", Str("")).Str?
  }

  /** `(pr.get(side) or {}).get("ref", "")` */
  function BranchRef(pr: map<string, Json>, side: string): string
    requires BranchRefOk(pr, side)
  {
    Get(AsObject(Get(pr, side, Null)), "ref", Str("")).s
  }

  /** `data.get("pull_request") or {}` */
  function PullRequestObject(data: map<string, Json>): map<string, Json>
    requires ObjectOrFalsy(Get(data, "pull_request", Null))
  {
    AsObject(Get(data, "pull_request", Null))
  }

  /** `pr.get("merged") and action == "closed"` */
  predicate IsMerged(data: map<string, Json>, pr: map<string, Json>) {
    Truthy(Get(pr, "merged", Null)) && Get(data, "action", Null) == Str("closed")
  }

  /** `action == "opened"` */
  predicate IsOpened(data: map<string, Json>) {
    Get(data, "action", Null) == Str("opened")
  }

  /**
   * The pull-request payloads the handler processes without raising, with
   * string-valued fields where they are stored.
   */
  predicate PullRequestOk(data: map<string, Json>) {
    ObjectOrFalsy(Get(data, "pull_request", Null)) &&
    var pr := PullRequestObject(data);
    BranchRefOk(pr, "head") && BranchRefOk(pr, "base") && SenderLoginOk(data) &&
    IsScalar(Get(pr, "number", Str(""))) &&
    (if IsMerged(data, pr) then StringOrFalsy(Get(pr, "merged_at", Null))
     else IsOpened(data) ==> StringOrFalsy(Get(pr, "created_at", Null)))
  }

  /** The pull-request branch of `receiver`: a merge, an opened pull request, or nothing. */
  function ExtractPullRequest(data: map<string, Json>): (r: Option<Record>)
    requires PullRequestOk(data)
    ensures var pr := PullRequestObject(data);
      r.Some? <==> IsMerged(data, pr) || IsOpened(data)
    ensures var pr := PullRequestObject(data);
      r.Some? ==>
        ValidRecord(r.value) &&
        r.value.fromBranch == BranchRef(pr, "head") &&
        r.value.toBranch == BranchRef(pr, "base") &&
        r.value.author == SenderLogin(data) &&
        r.value.requestId == PyStr(Get(pr, "number", Str("")))
    ensures var pr := PullRequestObject(data);
      IsMerged(data, pr) ==>
        r.Some? && r.value.action == Merge && r.value.timestamp == CanonicaliseValue(Get(pr, "merged_at", Null))
    ensures var pr := PullRequestObject(data);
      !IsMerged(data, pr) && IsOpened(data) ==>
        r.Some? && r.value.action == PullRequest && r.value.timestamp == CanonicaliseValue(Get(pr, "created_at", Null))
  {
    var pr := PullRequestObject(data);
    var fromBranch := BranchRef(pr, "head");
    var toBranch := BranchRef(pr, "base");
    var author := SenderLogin(data);
    var requestId := PyStr(Get(pr, "number", Str("")));
    if IsMerged(data, pr) then
      Some(Record(requestId, author, Merge, fromBranch, toBranch, CanonicaliseValue(Get(pr, "merged_at", Null))))
    else if IsOpened(data) then
      Some(Record(requestId, author, PullRequest, fromBranch, toBranch, CanonicaliseValue(Get(pr, "created_at", Null))))
    else
      None
  }

  /** A pull request closed without being merged is not stored. */
  lemma ClosedWithoutMergeIgnored(data: map<string, Json>)
    requires PullRequestOk(data)
    requires Get(data, "action", Null) == Str("closed")
    requires !Truthy(Get(PullRequestObject(data), "merged", Null))
    ensures ExtractPullRequest(data) == None
  {
  }

  // ---------------------------------------------------------------------------
  // The receiver

  /** The payloads the branch chosen for `event` processes without raising. */
  predicate IngestOk(event: string, data: map<string, Json>) {
    (event == "push" ==> PushOk(data)) && (event == "pull_request" ==> PullRequestOk(data))
  }

  /** The record the receiver inserts for `event`, if any. */
  function Ingest(event: string, data: map<string, Json>): (r: Option<Record>)
    requires IngestOk(event, data)
    ensures event != "push" && event != "pull_request" ==> r.None?
    ensures r.Some? ==> ValidRecord(r.value)
    ensures r.Some? ==> (r.value.action == Push <==> event == "push")
  {
    if event == "push" then ExtractPush(data)
    else if event == "pull_request" then ExtractPullRequest(data)
    else None
  }

  /** A non-empty header other than exactly `push` or `pull_request` stores nothing, whatever the payload. */
  lemma UnrecognisedHeaderIgnored(header: string, data: map<string, Json>)
    requires header != "" && header != "push" && header != "pull_request"
    ensures IngestOk(Classify(header, data), data)
    ensures Ingest(Classify(header, data), data) == None
  {
  }

  /** What the receiver answers. */
  datatype Response = Response(status: nat, message: string, error: Option<string>)

  const ACCEPTED := Response(200, "Webhook received", None)
  const DATABASE_NOT_INITIALISED := Response(500, "Webhook received", Some("Database not initialized"))

  /** The documents a call appends: the record, unless there is none or `insert_one` raises. */
  function Appended(record: Option<Record>, insertFails: bool, id: nat): (docs: seq<Document>)
    ensures |docs| <= 1
    ensures docs != [] <==> record.Some? && !insertFails
  {
    if record.Some? && !insertFails then [Document(id, RecordFields(record.value))] else []
  }

  /**
   * `receiver()`: classify, give up with 500 when the database handle is
   * missing, otherwise extract and insert at most one record (a failing
   * insert is swallowed) and answer 200.
   */
  method Receive(header: string, data: map<string, Json>, db: Store?, insertFails: bool)
    returns (resp: Response)
    requires db != null ==> IngestOk(Classify(header, data), data) && db.Valid()
    modifies db
    ensures db == null ==> resp == DATABASE_NOT_INITIALISED
    ensures db != null ==> resp == ACCEPTED && db.Valid()
    ensures db != null ==>
      db.docs == old(db.docs) + Appended(Ingest(Classify(header, data), data), insertFails, |old(db.docs)|)
    ensures db != null && (forall d :: d in old(db.docs) ==> HasKnownAction(d.fields)) ==>
      forall d :: d in db.docs ==> HasKnownAction(d.fields)
  {
    var event := Classify(header, data);
    if db == null {
      return DATABASE_NOT_INITIALISED;
    }
    var record: Option<Record> := None;
    if event == "push" {
      record := ExtractPush(data);
    } else if event == "pull_request" {
      record := ExtractPullRequest(data);
    }
    if record.Some? {
      var inserted := db.InsertOne(RecordFields(record.value), insertFails);
    }
    return ACCEPTED;
  }
}
