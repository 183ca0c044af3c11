/** The client's side of the document-store protocol (`Model`): the patch
    bodies it builds, the responses it accepts, the reactions backfill, the
    subscription stream filter and the validation of fetched collections.
    Fetching itself is abstract: a request is described by a value, and the
    response is a record the caller supplies. */
module Protocol {
  import opened Wrappers
  import opened Types

  // ---------------------------------------------------------------------
  // JSON values, requests and responses

  /** A parsed JSON value; numbers are integers in this model. */
  datatype Json = JNull | JBool(b: bool) | JNum(n: int) | JStr(s: string)
                | JArr(items: seq<Json>) | JObj(fields: map<string, Json>)

  /** JavaScript truthiness of a JSON value. */
  predicate Truthy(j: Json)
  {
    match j
    case JNull => false
    case JBool(b) => b
    case JNum(n) => n != 0
    case JStr(s) => s != ""
    case JArr(_) => true
    case JObj(_) => true
  }

  /** The message of the `TypeError` the engine throws when a property is
      read from `null` or `in` is applied to a primitive. */
  const TypeErrorMessage: string := "TypeError"

  /** The message of the `SyntaxError` when a body is not JSON. */
  const NotJsonMessage: string := "SyntaxError"

  /** `j.key`: reading a property of `null` throws, a missing property is
      `undefined` (`None`), and primitives and arrays have none of the keys
      read here. */
  function Property(j: Json, key: string): (r: Result<Option<Json>>)
    ensures r.Failure? <==> j.JNull?
    ensures j.JObj? && key in j.fields ==> r == Success(Some(j.fields[key]))
    ensures j.JObj? && key !in j.fields ==> r == Success(None)
  {
    match j
    case JNull => Failure(Error(TypeErrorMessage))
    case JObj(fields) => Success(if key in fields then Some(fields[key]) else None)
    case _ => Success(None)
  }

  /** A request handed to `fetch`: method, URL and JSON body. */
  datatype Request = Request(verb: string, url: string, body: Option<Json>)

  /** A response as the client reads it. Header names are taken to be in
      lower case, the form `Headers` keeps them in, and `Header` matches them
      exactly; `body` is `None` when the body is not JSON. */
  datatype Response = Response(ok: bool, status: nat, statusText: string,
                               headers: map<string, string>, body: Option<Json>)

  /** `response.headers.get(name)` for a lower-case name. */
  function Header(r: Response, name: string): Option<string>
  {
    if name in r.headers then Some(r.headers[name]) else None
  }

  // ---------------------------------------------------------------------
  // Status codes as error messages

  function DigitChar(d: nat): (c: char)
    requires d < 10
    ensures '0' <= c <= '9'
  {
    (d + '0' as int) as char
  }

  /** `status.toString()`: the decimal digits of the status code. */
  function DecimalString(n: nat): (s: string)
    ensures |s| >= 1
    ensures forall i :: 0 <= i < |s| ==> '0' <= s[i] <= '9'
    decreases n
  {
    if n < 10 then [DigitChar(n)] else DecimalString(n / 10) + [DigitChar(n % 10)]
  }

  /** The number a string of decimal digits denotes, `None` for any other
      string. */
  function ParseDecimal(s: string): (r: Option<nat>)
    ensures s == [] ==> r.None?
    decreases |s|
  {
    if |s| == 0 || !('0' <= s[|s| - 1] <= '9') then None
    else
      var d := (s[|s| - 1] as int) - ('0' as int);
      if |s| == 1 then Some(d)
      else match ParseDecimal(s[..|s| - 1])
           case None => None
           case Some(m) => Some(m * 10 + d)
  }

  /** The status in an error message can be read back. */
  lemma {:induction false} DecimalRoundTrip(n: nat)
    ensures ParseDecimal(DecimalString(n)) == Some(n)
    decreases n
  {
    var s := DecimalString(n);
    if n >= 10 {
      DecimalRoundTrip(n / 10);
      assert s[..|s| - 1] == DecimalString(n / 10);
    }
  }

  /** Different status codes give different messages. */
  lemma DecimalInjective(m: nat, n: nat)
    requires DecimalString(m) == DecimalString(n)
    ensures m == n
  {
    DecimalRoundTrip(m);
    DecimalRoundTrip(n);
  }

  // ---------------------------------------------------------------------
  // typedFetch and emptyFetch

  /** `typedFetch`: a response that is not ok fails with its status code as
      the message; otherwise the parsed body. */
  function TypedFetch(r: Response): (res: Result<Json>)
    ensures !r.ok ==> res == Failure(Error(DecimalString(r.status)))
    ensures r.ok ==> (res.Success? <==> r.body.Some?)
    ensures res.Success? ==> res.value == r.body.value
  {
    if !r.ok then Failure(Error(DecimalString(r.status)))
    else if r.body.Some? then Success(r.body.value)
    else Failure(Error(NotJsonMessage))
  }

  /** The message of `emptyFetch` when a body is announced. */
  const ExpectedEmpty: string := "expected empty response"

  /** `emptyFetch`: an ok response with no `Content-Length`, an empty one or
      `"0"` succeeds. */
  function EmptyFetch(r: Response): (res: Result<()>)
  {
    if !r.ok then Failure(Error(DecimalString(r.status)))
    else
      var length := Header(r, "content-length");
      if length.Some? && length.value != "" && length.value != "0" then Failure(Error(ExpectedEmpty))
      else Success(())
  }

  /** Both directions of the acceptance rule of `emptyFetch`, and the two
      kinds of failure. */
  lemma EmptyFetchAccepts(r: Response)
    ensures EmptyFetch(r).Success? <==>
      r.ok && Header(r, "content-length") in {None, Some(""), Some("0")}
    ensures !r.ok ==> EmptyFetch(r) == Failure(Error(DecimalString(r.status)))
    ensures r.ok && EmptyFetch(r).Failure? ==> EmptyFetch(r).error.message == ExpectedEmpty
  {
  }

  /** A failure of `typedFetch` or `emptyFetch` on a response that is not ok
      names its status code, which can be read back from the message. */
  lemma FailureNamesStatus(r: Response)
    requires !r.ok
    ensures ParseDecimal(TypedFetch(r).error.message) == Some(r.status)
    ensures ParseDecimal(EmptyFetch(r).error.message) == Some(r.status)
  {
    DecimalRoundTrip(r.status);
  }

  // ---------------------------------------------------------------------
  // Patch bodies

  /** One operation of a JSON patch body. */
  datatype PatchOp = PatchOp(op: string, path: string, value: Json)

  function PatchJson(p: PatchOp): Json
  {
    JObj(map["op" := JStr(p.op), "path" := JStr(p.path), "value" := p.value])
  }

  /** The operations of a patch body: an array of objects with exactly the
      keys `op`, `path` and `value`, the first two strings. */
  function PatchOps(body: Json): Option<seq<PatchOp>>
  {
    match body
    case JArr(items) => DecodeOps(items)
    case _ => None
  }

  function DecodeOps(items: seq<Json>): Option<seq<PatchOp>>
    decreases |items|
  {
    if items == [] then Some([])
    else
      match DecodeOp(items[0])
      case None => None
      case Some(p) =>
        match DecodeOps(items[1..])
        case None => None
        case Some(ps) => Some([p] + ps)
  }

  function DecodeOp(j: Json): Option<PatchOp>
  {
    if j.JObj? && j.fields.Keys == {"op", "path", "value"}
       && j.fields["op"].JStr? && j.fields["path"].JStr?
    then Some(PatchOp(j.fields["op"].s, j.fields["path"].s, j.fields["value"]))
    else None
  }

  /** A patch operation survives encoding and decoding. */
  lemma PatchRoundTrip(p: PatchOp)
    ensures DecodeOp(PatchJson(p)) == Some(p)
    ensures PatchOps(JArr([PatchJson(p)])) == Some([p])
  {
    var m := PatchJson(p).fields;
    assert m.Keys == {"op", "path", "value"};
    assert [PatchJson(p)][1..] == [];
    assert DecodeOp(PatchJson(p)) == Some(p);
    assert DecodeOps([PatchJson(p)][1..]) == Some([]);
    assert [p] + [] == [p];
    assert DecodeOps([PatchJson(p)]) == Some([p]);
  }

  /** The path of one kind's user array. */
  function ReactionPath(reaction: string): string
  {
    "/reactions/" + reaction
  }

  /** The kind a patch path addresses, if it is one kind's array. */
  function PathKind(path: string): (k: Option<Kind>)
    ensures k.Some? ==> path == ReactionPath(KindName(k.value))
  {
    if path == ReactionPath("smile") then Some(Smile)
    else if path == ReactionPath("frown") then Some(Frown)
    else if path == ReactionPath("like") then Some(Like)
    else if path == ReactionPath("celebrate") then Some(Celebrate)
    else None
  }

  /** Each kind's path names that kind and no other. */
  lemma PathKindRoundTrip(k: Kind)
    ensures PathKind(ReactionPath(KindName(k))) == Some(k)
  {
    match k
    case Smile =>
    case Frown =>
      assert ReactionPath("frown") != ReactionPath("smile") by {
        assert ReactionPath("frown")[11] != ReactionPath("smile")[11];
      }
    case Like =>
      assert ReactionPath("like")[11] != ReactionPath("smile")[11];
      assert ReactionPath("like")[11] != ReactionPath("frown")[11];
    case Celebrate =>
      assert ReactionPath("celebrate")[11] != ReactionPath("smile")[11];
      assert ReactionPath("celebrate")[11] != ReactionPath("frown")[11];
      assert ReactionPath("celebrate")[11] != ReactionPath("like")[11];
  }

  /** `updateReaction`: a `PATCH` of the post with one operation on the
      kind's array, the caller's operation name unchanged. */
  function UpdateReaction(base: string, op: string, reaction: string, user: string, path: string): (req: Request)
    ensures req.verb == "PATCH" && req.url == base + path && req.body.Some? && req.body.value.JArr?
    ensures |req.body.value.items| == 1
  {
    Request("PATCH", base + path, Some(JArr([PatchJson(PatchOp(op, ReactionPath(reaction), JStr(user)))])))
  }

  /** The body of `updateReaction` decodes to exactly one operation: the
      caller's, on `/reactions/<reaction>`, with the user as value. */
  lemma UpdateReactionBody(base: string, op: string, reaction: string, user: string, path: string)
    ensures var req := UpdateReaction(base, op, reaction, user, path);
      req.verb == "PATCH" && req.url == base + path && req.body.Some? &&
      PatchOps(req.body.value) == Some([PatchOp(op, "/reactions/" + reaction, JStr(user))])
  {
    PatchRoundTrip(PatchOp(op, ReactionPath(reaction), JStr(user)));
  }

  /** A patch for one of the four kinds addresses that kind's array. */
  lemma UpdateReactionKind(base: string, op: string, k: Kind, user: string, path: string)
    ensures var ops := PatchOps(UpdateReaction(base, op, KindName(k), user, path).body.value);
      ops.Some? && |ops.value| == 1 && PathKind(ops.value[0].path) == Some(k)
  {
    UpdateReactionBody(base, op, KindName(k), user, path);
    PathKindRoundTrip(k);
  }

  /** The reactions object `addReactions` installs: every kind with no users. */
  const EmptyReactions: Json :=
    JObj(map["smile" := JArr([]), "frown" := JArr([]), "like" := JArr([]), "celebrate" := JArr([])])

  /** `addReactions`: a `PATCH` of the post adding the empty reactions object. */
  function AddReactions(base: string, path: string): (req: Request)
    ensures req.verb == "PATCH" && req.url == base + path && req.body.Some? && req.body.value.JArr?
    ensures |req.body.value.items| == 1
  {
    Request("PATCH", base + path, Some(JArr([PatchJson(PatchOp("ObjectAdd", "/reactions", EmptyReactions))])))
  }

  /** The user arrays a reactions object holds, per kind; a kind whose value
      is not an array of strings has none. */
  function DecodeReactions(j: Json): Reactions
  {
    if j.JObj? then
      map k | k in AllKinds && KindName(k) in j.fields && j.fields[KindName(k)].JArr?
                && Strings(j.fields[KindName(k)].items).Some?
        :: Strings(j.fields[KindName(k)].items).value
    else map[]
  }

  /** The strings of an array whose items are all strings. */
  function Strings(items: seq<Json>): Option<seq<string>>
    decreases |items|
  {
    if items == [] then Some([])
    else if !items[0].JStr? then None
    else
      match Strings(items[1..])
      case None => None
      case Some(rest) => Some([items[0].s] + rest)
  }

  /** `addReactions` sends one `ObjectAdd` at `/reactions`. */
  lemma AddReactionsBody(base: string, path: string)
    ensures var req := AddReactions(base, path);
      req.verb == "PATCH" && req.url == base + path && req.body.Some? &&
      PatchOps(req.body.value) == Some([PatchOp("ObjectAdd", "/reactions", EmptyReactions)])
  {
    PatchRoundTrip(PatchOp("ObjectAdd", "/reactions", EmptyReactions));
  }

  /** The value `addReactions` installs has exactly the four kinds' keys. */
  lemma EmptyReactionsKeys()
    ensures EmptyReactions.fields.Keys == set k | k in AllKinds :: KindName(k)
  {
    assert KindName(Smile) == "smile" && KindName(Frown) == "frown";
    assert KindName(Like) == "like" && KindName(Celebrate) == "celebrate";
  }

  /** Each kind starts with an empty user array. */
  lemma EmptyReactionsDecode(k: Kind)
    ensures k in DecodeReactions(EmptyReactions) && DecodeReactions(EmptyReactions)[k] == []
  {
    assert Strings([]) == Some([]);
    assert k in AllKinds;
    match k
    case Smile =>
    case Frown =>
    case Like =>
    case Celebrate =>
  }

  // ---------------------------------------------------------------------
  // The reactions backfill

  /** What `checkReactions` decides: nothing to do, or a backfill of the
      post at `path` (the value of `data.path`, `None` when missing). */
  datatype Backfill = NoBackfill | BackfillAt(path: Option<Json>)

  /** `checkReactions`: a string is parsed first; the backfill is due when
      `doc` is falsy or has no `reactions` key. `in` on a primitive throws. */
  function CheckReactions(data: Json, parse: string -> Option<Json>): (r: Result<Backfill>)
    ensures data.JStr? && parse(data.s).None? ==> r == Failure(Error(NotJsonMessage))
    ensures data.JStr? && parse(data.s).Some? ==> r == Decide(parse(data.s).value)
    ensures !data.JStr? ==> r == Decide(data)
  {
    if data.JStr? then
      match parse(data.s)
      case None => Failure(Error(NotJsonMessage))
      case Some(parsed) => Decide(parsed)
    else Decide(data)
  }

  /** The decision of `checkReactions` on parsed data: it throws on `null`
      and on a truthy primitive document, and nothing is to be done exactly
      when the document is an object holding a `reactions` key. */
  function Decide(data: Json): (r: Result<Backfill>)
    ensures r.Failure? <==>
      data.JNull? ||
      (data.JObj? && "doc" in data.fields && Truthy(data.fields["doc"]) &&
       !data.fields["doc"].JObj? && !data.fields["doc"].JArr?)
    ensures r == Success(NoBackfill) <==>
      data.JObj? && "doc" in data.fields && data.fields["doc"].JObj? &&
      "reactions" in data.fields["doc"].fields
    ensures r.Success? && r.value.BackfillAt? ==>
      r.value.path == (if data.JObj? && "path" in data.fields then Some(data.fields["path"]) else None)
  {
    match Property(data, "doc")
    case Failure(e) => Failure(e)
    case Success(doc) =>
      if doc.None? || !Truthy(doc.value) then Success(BackfillAt(Property(data, "path").value))
      else
        match doc.value
        case JObj(fields) =>
          if "reactions" in fields then Success(NoBackfill) else Success(BackfillAt(Property(data, "path").value))
        case JArr(_) => Success(BackfillAt(Property(data, "path").value))
        case _ => Failure(Error(TypeErrorMessage))
  }

  /** The value of `data.path` on a post object, `None` when it has none. */
  function PathOf(post: map<string, Json>): Option<Json>
  {
    if "path" in post then Some(post["path"]) else None
  }

  /** On any post object whose document is an object (other keys such as
      `meta` alongside), the backfill is due exactly when the `reactions`
      key is absent; a present key holding `null` or an empty array does not
      count as absent. */
  lemma BackfillIffKeyAbsent(post: map<string, Json>, fields: map<string, Json>, parse: string -> Option<Json>)
    requires "doc" in post && post["doc"] == JObj(fields)
    ensures CheckReactions(JObj(post), parse) ==
      (if "reactions" in fields then Success(NoBackfill) else Success(BackfillAt(PathOf(post))))
    ensures CheckReactions(JObj(post["doc" := JObj(fields["reactions" := JNull])]), parse) == Success(NoBackfill)
    ensures CheckReactions(JObj(post["doc" := JObj(fields["reactions" := JArr([])])]), parse) == Success(NoBackfill)
  {
  }

  /** A post object with no document, or a falsy one (`null`, `false`, `0`,
      `""`), is backfilled at its path. */
  lemma MissingDocBackfills(post: map<string, Json>, parse: string -> Option<Json>)
    requires "doc" !in post || !Truthy(post["doc"])
    ensures CheckReactions(JObj(post), parse) == Success(BackfillAt(PathOf(post)))
  {
  }

  /** The backfill is needed once: with the object `addReactions` sends in
      place in any post's document, the post no longer triggers it. */
  lemma BackfillOnce(post: map<string, Json>, fields: map<string, Json>, parse: string -> Option<Json>)
    ensures CheckReactions(JObj(post["doc" := JObj(fields["reactions" := EmptyReactions])]), parse) == Success(NoBackfill)
  {
  }

  // ---------------------------------------------------------------------
  // The subscription

  const SubscribeSuffix: string := "/posts/?mode=subscribe"

  /** The URL of a channel's update stream. */
  function SubscriptionUrl(url: string): (r: string)
    ensures |r| == |url| + |SubscribeSuffix|
    ensures r[..|url|] == url && r[|url|..] == SubscribeSuffix
  {
    url + SubscribeSuffix
  }

  /** Different channels subscribe at different URLs. */
  lemma SubscriptionUrlInjective(a: string, b: string)
    requires SubscriptionUrl(a) == SubscriptionUrl(b)
    ensures a == b
  {
    assert a == SubscriptionUrl(a)[..|a|];
    assert b == SubscriptionUrl(b)[..|b|];
  }

  /** `onopen`: the stream is accepted only when the response is ok and its
      content type is exactly `text/event-stream`; otherwise it fails with
      the status text. */
  function OnOpen(r: Response): (res: Result<()>)
    ensures res.Success? <==> r.ok && Header(r, "content-type") == Some("text/event-stream")
    ensures res.Failure? ==> res.error == Error(r.statusText)
  {
    if r.ok && Header(r, "content-type") == Some("text/event-stream") then Success(())
    else Failure(Error(r.statusText))
  }

  /** A content type with parameters is refused too. */
  lemma OnOpenExact(r: Response)
    requires r.ok && Header(r, "content-type") == Some("text/event-stream; charset=utf-8")
    ensures OnOpen(r).Failure?
  {
    assert Header(r, "content-type").value[17] == ';';
  }

  /** A server-sent message: its event name and its data, `None` when the
      data is not JSON. */
  datatype StreamMessage = StreamMessage(event: string, data: Option<Json>)

  /** `onmessage`: only `update` messages are forwarded, with their parsed
      data; parsing the data of one that is not JSON throws. */
  function OnMessage(m: StreamMessage): (res: Result<Option<Json>>)
    ensures res.Success? && res.value.Some? <==> m.event == "update" && m.data.Some?
    ensures res.Success? && res.value.Some? ==> res.value.value == m.data.value
    ensures m.event != "update" ==> res == Success(None)
    ensures m.event == "update" && m.data.None? ==> res == Failure(Error(NotJsonMessage))
  {
    if m.event == "update" then
      if m.data.Some? then Success(Some(m.data.value)) else Failure(Error(NotJsonMessage))
    else Success(None)
  }

  // ---------------------------------------------------------------------
  // Validating fetched collections

  /** The items of a fetched collection: the body must be an array, since
      the client calls `forEach` on it. */
  function FetchedItems(r: Response): (res: Result<seq<Json>>)
    ensures res.Success? <==> r.ok && r.body.Some? && r.body.value.JArr?
    ensures res.Success? ==> res.value == r.body.value.items
  {
    match TypedFetch(r)
    case Failure(e) => Failure(e)
    case Success(j) => if j.JArr? then Success(j.items) else Failure(Error(TypeErrorMessage))
  }

  /** Every item passes the validator for the schema. */
  predicate AllValid(items: seq<Json>, valid: (Json, string) -> bool, schema: string)
  {
    forall i :: 0 <= i < |items| ==> valid(items[i], schema)
  }

  /** The `forEach` of `getWorkspaces` and `openWorkspace`: the first item
      the validator rejects aborts with `message`; otherwise the items are
      returned unchanged. */
  method ValidateEach(items: seq<Json>, valid: (Json, string) -> bool, schema: string, message: string)
    returns (res: Result<seq<Json>>)
    ensures res.Success? <==> AllValid(items, valid, schema)
    ensures res.Success? ==> res.value == items
    ensures res.Failure? ==> res.error == Error(message)
  {
    var i := 0;
    while i < |items|
      invariant 0 <= i <= |items|
      invariant forall j :: 0 <= j < i ==> valid(items[j], schema)
    {
      if !valid(items[i], schema) {
        return Failure(Error(message));
      }
      i := i + 1;
    }
    return Success(items);
  }

  /** `getWorkspaces`: the fetched workspaces, each validated. */
  method GetWorkspaces(r: Response, valid: (Json, string) -> bool) returns (res: Result<seq<Json>>)
    ensures res.Success? <==> FetchedItems(r).Success? && AllValid(FetchedItems(r).value, valid, "workspace")
    ensures res.Success? ==> res.value == r.body.value.items
    ensures FetchedItems(r).Success? && res.Failure? ==> res.error == Error("Invalid workspace data")
    ensures FetchedItems(r).Failure? ==> res == Failure(FetchedItems(r).error)
  {
    var fetched := FetchedItems(r);
    if fetched.Failure? {
      return Failure(fetched.error);
    }
    res := ValidateEach(fetched.value, valid, "workspace", "Invalid workspace data");
  }

  /** `openWorkspace`: the fetched channels of a workspace, each validated. */
  method OpenWorkspace(r: Response, valid: (Json, string) -> bool) returns (res: Result<seq<Json>>)
    ensures res.Success? <==> FetchedItems(r).Success? && AllValid(FetchedItems(r).value, valid, "channel")
    ensures res.Success? ==> res.value == r.body.value.items
    ensures FetchedItems(r).Success? && res.Failure? ==> res.error == Error("Invalid channel data")
    ensures FetchedItems(r).Failure? ==> res == Failure(FetchedItems(r).error)
  {
    var fetched := FetchedItems(r);
    if fetched.Failure? {
      return Failure(fetched.error);
    }
    res := ValidateEach(fetched.value, valid, "channel", "Invalid channel data");
  }

  /** The paths backfilled for a decision, as a list of zero or one. */
  function Backfilled(b: Backfill): seq<Option<Json>>
  {
    if b.BackfillAt? then [b.path] else []
  }

  /** `checkReactions` as the function the scan calls on each post. */
  function Checker(parse: string -> Option<Json>): Json -> Result<Backfill>
  {
    data => CheckReactions(data, parse)
  }

  /** The scan of `openChannel` over the posts from the front, with `check`
      standing for `checkReactions`: the error it stops with, if any, and
      the backfills issued before that. */
  function ScanPosts(items: seq<Json>, valid: (Json, string) -> bool, check: Json -> Result<Backfill>)
    : (Option<Error>, seq<Option<Json>>)
    decreases |items|
  {
    if items == [] then (None, [])
    else if !valid(items[0], "post") then (Some(Error("Invalid post data")), [])
    else
      match check(items[0])
      case Failure(e) => (Some(e), [])
      case Success(b) =>
        var rest := ScanPosts(items[1..], valid, check);
        (rest.0, Backfilled(b) + rest.1)
  }

  /** One step of the scan: the first post is validated, then checked. */
  lemma ScanCons(items: seq<Json>, valid: (Json, string) -> bool, check: Json -> Result<Backfill>)
    requires items != []
    ensures !valid(items[0], "post") ==> ScanPosts(items, valid, check) == (Some(Error("Invalid post data")), [])
    ensures valid(items[0], "post") && check(items[0]).Failure? ==>
      ScanPosts(items, valid, check) == (Some(check(items[0]).error), [])
    ensures valid(items[0], "post") && check(items[0]).Success? ==>
      ScanPosts(items, valid, check).0 == ScanPosts(items[1..], valid, check).0 &&
      ScanPosts(items, valid, check).1 ==
        Backfilled(check(items[0]).value) + ScanPosts(items[1..], valid, check).1
  {
  }

  /** The `forEach` of `openChannel`: each post is validated and, when
      valid, checked for its reactions before the next is looked at; the
      first invalid post or failed check aborts. Returns the error, if any,
      and the backfills issued. */
  method ScanEach(items: seq<Json>, valid: (Json, string) -> bool, check: Json -> Result<Backfill>)
    returns (err: Option<Error>, backfills: seq<Option<Json>>)
    ensures err == ScanPosts(items, valid, check).0
    ensures backfills == ScanPosts(items, valid, check).1
  {
    backfills := [];
    var i := 0;
    assert items[0..] == items;
    while i < |items|
      invariant 0 <= i <= |items|
      invariant ScanPosts(items, valid, check).0 == ScanPosts(items[i..], valid, check).0
      invariant ScanPosts(items, valid, check).1 == backfills + ScanPosts(items[i..], valid, check).1
    {
      assert items[i..][0] == items[i] && items[i..][1..] == items[i + 1..];
      ScanCons(items[i..], valid, check);
      if !valid(items[i], "post") {
        return Some(Error("Invalid post data")), backfills;
      }
      var decision := check(items[i]);
      if decision.Failure? {
        return Some(decision.error), backfills;
      }
      var issued := Backfilled(decision.value);
      ConcatAssoc(backfills, issued, ScanPosts(items[i + 1..], valid, check).1);
      backfills := backfills + issued;
      i := i + 1;
    }
    assert items[i..] == [];
    return None, backfills;
  }

  lemma ConcatAssoc<T>(a: seq<T>, b: seq<T>, c: seq<T>)
    ensures (a + b) + c == a + (b + c)
  {
  }

  /** `openChannel`: the fetched posts, each validated and checked in order;
      the data is returned unchanged when every post passes. */
  method OpenChannel(r: Response, valid: (Json, string) -> bool, parse: string -> Option<Json>)
    returns (res: Result<seq<Json>>, backfills: seq<Option<Json>>)
    ensures FetchedItems(r).Failure? ==> res == Failure(FetchedItems(r).error) && backfills == []
    ensures FetchedItems(r).Success? ==>
      var scan := ScanPosts(FetchedItems(r).value, valid, Checker(parse));
      backfills == scan.1 &&
      (scan.0.None? ==> res == Success(FetchedItems(r).value)) &&
      (scan.0.Some? ==> res == Failure(scan.0.value))
  {
    var fetched := FetchedItems(r);
    if fetched.Failure? {
      return Failure(fetched.error), [];
    }
    var err;
    err, backfills := ScanEach(fetched.value, valid, Checker(parse));
    if err.Some? {
      res := Failure(err.value);
    } else {
      res := Success(fetched.value);
    }
  }

  /** A post is checked before the next is validated: when the post at `j`
      is the first invalid one and every earlier check succeeded, the scan
      stops with "Invalid post data" after the backfills of the posts before
      it. */
  lemma {:induction false} FirstInvalidPost(items: seq<Json>, valid: (Json, string) -> bool,
                                            check: Json -> Result<Backfill>, j: nat)
    requires j < |items| && !valid(items[j], "post")
    requires forall i :: 0 <= i < j ==> valid(items[i], "post") && check(items[i]).Success?
    ensures ScanPosts(items, valid, check) == (Some(Error("Invalid post data")), ScanPosts(items[..j], valid, check).1)
    ensures ScanPosts(items[..j], valid, check).0.None?
    decreases j
  {
    if j > 0 {
      var rest := items[1..];
      assert rest[..j - 1] == items[..j][1..];
      assert items[..j][0] == items[0];
      FirstInvalidPost(rest, valid, check, j - 1);
    }
  }

  /** When every post is valid and checks cleanly, the scan succeeds, the
      backfills are at most one per post, and a single post's backfill is
      the one its own check asks for. */
  lemma {:induction false} CleanScan(items: seq<Json>, valid: (Json, string) -> bool, check: Json -> Result<Backfill>)
    requires forall i :: 0 <= i < |items| ==> valid(items[i], "post") && check(items[i]).Success?
    ensures ScanPosts(items, valid, check).0.None?
    ensures |ScanPosts(items, valid, check).1| <= |items|
    ensures |items| == 1 ==> ScanPosts(items, valid, check).1 == Backfilled(check(items[0]).value)
    decreases |items|
  {
    if items != [] {
      CleanScan(items[1..], valid, check);
    }
  }

  /** The backfills of a clean scan are those of any prefix followed by
      those of the rest: each post contributes its own, in order. */
  lemma {:induction false} CleanScanSplits(items: seq<Json>, valid: (Json, string) -> bool,
                                           check: Json -> Result<Backfill>, k: nat)
    requires forall i :: 0 <= i < |items| ==> valid(items[i], "post") && check(items[i]).Success?
    requires k <= |items|
    ensures ScanPosts(items, valid, check).1 ==
      ScanPosts(items[..k], valid, check).1 + ScanPosts(items[k..], valid, check).1
    decreases k
  {
    if k == 0 {
      assert items[..0] == [] && items[0..] == items;
    } else {
      var rest := items[1..];
      CleanScanSplits(rest, valid, check, k - 1);
      assert rest[k - 1..] == items[k..];
      assert items[..k][0] == items[0] && items[..k][1..] == rest[..k - 1];
      ScanCons(items, valid, check);
      ScanCons(items[..k], valid, check);
      ConcatAssoc(Backfilled(check(items[0]).value), ScanPosts(rest[..k - 1], valid, check).1,
                  ScanPosts(items[k..], valid, check).1);
    }
  }

  // ---------------------------------------------------------------------
  // Deletes

  /** The request that deletes the document at `id`. */
  function DeleteRequest(base: string, id: string): Request
  {
    Request("DELETE", base + id, None)
  }

  /** `deleteWorkspace`: resolves to the given id once the empty response
      is accepted. */
  function DeleteWorkspace(r: Response, id: string): (res: Result<string>)
    ensures res.Success? <==> EmptyFetch(r).Success?
    ensures res.Success? ==> res.value == id
    ensures res.Failure? ==> res.error == EmptyFetch(r).error
  {
    match EmptyFetch(r)
    case Success(_) => Success(id)
    case Failure(e) => Failure(e)
  }

  /** `deleteChannel`: resolves to the given path once the empty response
      is accepted. */
  function DeleteChannel(r: Response, path: string): (res: Result<string>)
    ensures res.Success? <==> EmptyFetch(r).Success?
    ensures res.Success? ==> res.value == path
    ensures res.Failure? ==> res.error == EmptyFetch(r).error
  {
    match EmptyFetch(r)
    case Success(_) => Success(path)
    case Failure(e) => Failure(e)
  }
}
