/**
  The response classifier and redirect follower (parse_results). A parsed S3
  reply is reduced to the two root elements the classifier looks at; what it
  reports is a sequence of lines, each with its indentation depth. A
  PermanentRedirect that names an endpoint is followed by fetching that
  endpoint and classifying its reply one level deeper.
 */
module Results {
  import opened Options

  /** An `Error` element: the text of its `Code` child and of its `Endpoint` child, when present. */
  datatype ErrorElement = ErrorElement(code: Option<string>, endpoint: Option<string>)

  /** A parsed reply: whether it has a `ListBucketResult` element, and its `Error` element if any. */
  datatype Document = Document(listBucketResult: bool, error: Option<ErrorElement>)

  /** What one reported line says. */
  datatype Message =
    | BucketFound(bucket: string, host: string)
    | KeyMissing(bucket: string)
    | AccessDenied(bucket: string)
    | BucketMissing(bucket: string)
    | Redirects(bucket: string, endpoint: string)
    | RedirectNowhere(bucket: string)
    | NoData

  /** A reported line and the recursion depth it was reported at. */
  datatype Line = Line(depth: nat, message: Message)

  /** Every line goes to the log; all but "Bucket does not exist" also go to the console. */
  predicate OnConsole(m: Message) {
    !m.BucketMissing?
  }

  /** The text of a line, without colours and without its indentation. */
  function Text(m: Message): (t: string)
    ensures |t| > 0 && t[0] != '\t'
  {
    match m
    case BucketFound(b, h) => "Bucket Found: " + b + " ( " + h + "/" + b + " )"
    case KeyMissing(b) => "The specified key does not exist: " + b
    case AccessDenied(b) => "Bucket found but access denied: " + b
    case BucketMissing(b) => "Bucket does not exist: " + b
    case Redirects(b, e) => "Bucket " + b + " redirects to: " + e
    case RedirectNowhere(b) => "Redirect found but can't find where to: " + b
    case NoData => " No data returned"
  }

  /** `depth` tab characters. */
  function Tabs(depth: nat): string {
    seq(depth, _ => '\t')
  }

  /** A line as written: its indentation, then its text. */
  function Render(l: Line): string {
    Tabs(l.depth) + Text(l.message)
  }

  /** The indentation built by appending one tab per level of depth. */
  method Indent(depth: nat) returns (tabs: string)
    ensures |tabs| == depth
    ensures forall i :: 0 <= i < |tabs| ==> tabs[i] == '\t'
    ensures tabs == Tabs(depth)
  {
    tabs := "";
    for i := 0 to depth
      invariant |tabs| == i
      invariant forall k :: 0 <= k < i ==> tabs[k] == '\t'
    {
      tabs := tabs + "\t";
    }
  }

  /** A rendered line starts with exactly as many tabs as its depth. */
  lemma RenderIndent(l: Line)
    ensures |Render(l)| > l.depth
    ensures Render(l)[..l.depth] == Tabs(l.depth)
    ensures forall i :: 0 <= i < l.depth ==> Render(l)[i] == '\t'
    ensures Render(l)[l.depth] != '\t'
  {
  }

  /** The error codes the classifier recognises. */
  const KnownCodes: set<string> := {"NoSuchKey", "AccessDenied", "NoSuchBucket", "PermanentRedirect"}

  /**
    The line the reply itself causes, before any redirect is followed; `None`
    when nothing is reported, which happens exactly for an `Error` whose code
    is missing or unknown.
   */
  function Report(doc: Document, bucket: string, host: string): (r: Option<Message>)
    ensures doc.listBucketResult ==> r == Some(BucketFound(bucket, host))
    ensures r.None? <==>
      && !doc.listBucketResult
      && doc.error.Some?
      && (doc.error.value.code.None? || doc.error.value.code.value !in KnownCodes)
    ensures r == Some(NoData) <==> !doc.listBucketResult && doc.error.None?
  {
    if doc.listBucketResult then Some(BucketFound(bucket, host))
    else if doc.error.None? then Some(NoData)
    else match doc.error.value.code
      case None => None
      case Some(code) =>
        if code == "NoSuchKey" then Some(KeyMissing(bucket))
        else if code == "AccessDenied" then Some(AccessDenied(bucket))
        else if code == "NoSuchBucket" then Some(BucketMissing(bucket))
        else if code == "PermanentRedirect" then
          match doc.error.value.endpoint
          case Some(e) => Some(Redirects(bucket, e))
          case None => Some(RedirectNowhere(bucket))
        else None
  }

  /** The endpoint a reply redirects to, if it is a PermanentRedirect that names one. */
  function RedirectTarget(doc: Document): (r: Option<string>)
    ensures r.Some? ==> forall b, h :: Report(doc, b, h) == Some(Redirects(b, r.value))
  {
    if !doc.listBucketResult && doc.error.Some? && doc.error.value.code == Some("PermanentRedirect")
    then doc.error.value.endpoint
    else None
  }

  /** The reply's own report as lines: none, or one at `depth`. */
  function Reported(doc: Document, bucket: string, host: string, depth: nat): seq<Line> {
    match Report(doc, bucket, host)
    case None => []
    case Some(m) => [Line(depth, m)]
  }

  /** The host argument get_page is called with, with an empty page, to follow a redirect. */
  function FollowUrl(endpoint: string): string {
    "http://" + endpoint
  }

  /**
    The network as seen by the redirect follower: `net[u]` is the parsed reply
    that get_page(u, '') returns when its body is non-empty; a URL missing
    from the map stands for an empty body.
   */
  type Net = map<string, Document>

  /**
    parse_results: the lines reported for `doc` at `depth` and, when it
    redirects to an endpoint whose reply is non-empty, the lines for that
    reply at `depth + 1`, reported against the endpoint as host. The source
    has no depth limit; `fuel` bounds the number of redirects followed.
   */
  function ParseResults(doc: Document, bucket: string, host: string, depth: nat, net: Net, fuel: nat): (lines: seq<Line>)
    ensures forall i :: 0 <= i < |lines| ==> lines[i].depth == depth + i
    ensures |lines| <= fuel + 1
    ensures lines == [] <==> Report(doc, bucket, host) == None
    ensures |lines| > 0 ==> lines[0].message == Report(doc, bucket, host).value
    ensures forall i :: 0 <= i < |lines| - 1 ==> lines[i].message.Redirects?
    ensures forall i :: 0 <= i < |lines| ==> lines[i].message.NoData? || lines[i].message.bucket == bucket
    decreases fuel
  {
    var here := Reported(doc, bucket, host, depth);
    match RedirectTarget(doc)
    case Some(e) =>
      if fuel > 0 && FollowUrl(e) in net
      then here + ParseResults(net[FollowUrl(e)], bucket, e, depth + 1, net, fuel - 1)
      else here
    case None => here
  }

  /** A `ListBucketResult` is reported as a found bucket, whatever else the reply holds. */
  lemma FoundWins(doc: Document, bucket: string, host: string, depth: nat, net: Net, fuel: nat)
    requires doc.listBucketResult
    ensures ParseResults(doc, bucket, host, depth, net, fuel) == [Line(depth, BucketFound(bucket, host))]
  {
  }

  /** A reply with neither element reports "No data returned". */
  lemma EmptyReplyIsNoData(bucket: string, host: string, depth: nat, net: Net, fuel: nat)
    ensures ParseResults(Document(false, None), bucket, host, depth, net, fuel) == [Line(depth, NoData)]
  {
  }

  /** The error codes that report one line and follow nothing. */
  lemma ErrorCodes(doc: Document, bucket: string, host: string, depth: nat, net: Net, fuel: nat)
    requires !doc.listBucketResult && doc.error.Some? && doc.error.value.code.Some?
    ensures doc.error.value.code.value == "AccessDenied" ==>
      ParseResults(doc, bucket, host, depth, net, fuel) == [Line(depth, AccessDenied(bucket))]
    ensures doc.error.value.code.value == "NoSuchKey" ==>
      ParseResults(doc, bucket, host, depth, net, fuel) == [Line(depth, KeyMissing(bucket))]
    ensures doc.error.value.code.value == "NoSuchBucket" ==>
      ParseResults(doc, bucket, host, depth, net, fuel) == [Line(depth, BucketMissing(bucket))]
      && !OnConsole(BucketMissing(bucket))
  {
  }

  /** An `Error` without a `Code`, or with a code the classifier does not know, reports nothing. */
  lemma UnknownErrorSilent(doc: Document, bucket: string, host: string, depth: nat, net: Net, fuel: nat)
    requires !doc.listBucketResult && doc.error.Some?
    requires doc.error.value.code.Some? ==>
      doc.error.value.code.value !in KnownCodes
    ensures ParseResults(doc, bucket, host, depth, net, fuel) == []
  {
  }

  /** A PermanentRedirect without `Endpoint` reports that it cannot tell where, and follows nothing. */
  lemma RedirectWithoutEndpoint(doc: Document, bucket: string, host: string, depth: nat, net: Net, fuel: nat)
    requires doc == Document(false, Some(ErrorElement(Some("PermanentRedirect"), None)))
    ensures ParseResults(doc, bucket, host, depth, net, fuel) == [Line(depth, RedirectNowhere(bucket))]
  {
  }

  /**
    A PermanentRedirect with `Endpoint` reports the endpoint; the endpoint is
    then fetched and, if its body is non-empty, classified one level deeper
    against the endpoint as host; otherwise nothing more is reported.
   */
  lemma RedirectWithEndpoint(doc: Document, bucket: string, host: string, depth: nat, net: Net, fuel: nat, e: string)
    requires !doc.listBucketResult && doc.error.Some?
    requires doc.error.value.code == Some("PermanentRedirect") && doc.error.value.endpoint == Some(e)
    requires fuel > 0
    ensures FollowUrl(e) in net ==>
              ParseResults(doc, bucket, host, depth, net, fuel)
              == [Line(depth, Redirects(bucket, e))] + ParseResults(net[FollowUrl(e)], bucket, e, depth + 1, net, fuel - 1)
    ensures FollowUrl(e) !in net ==>
              ParseResults(doc, bucket, host, depth, net, fuel) == [Line(depth, Redirects(bucket, e))]
  {
  }

  /** A smaller bound on redirects only cuts the report short: the lines it gives are a prefix. */
  lemma {:induction false} FuelPrefix(doc: Document, bucket: string, host: string, depth: nat, net: Net, fuel: nat, more: nat)
    requires fuel <= more
    ensures ParseResults(doc, bucket, host, depth, net, fuel) <= ParseResults(doc, bucket, host, depth, net, more)
    decreases fuel
  {
    var here := Reported(doc, bucket, host, depth);
    match RedirectTarget(doc)
    case Some(e) =>
      var url := FollowUrl(e);
      if fuel > 0 && url in net {
        FuelPrefix(net[url], bucket, e, depth + 1, net, fuel - 1, more - 1);
      } else {
        assert ParseResults(doc, bucket, host, depth, net, fuel) == here;
      }
    case None =>
  }

  /**
    The bound is adequate once it is not what cut the report short: if fewer
    lines than `fuel` were reported, every larger bound reports the same.
   */
  lemma {:induction false} FuelSuffices(doc: Document, bucket: string, host: string, depth: nat, net: Net, fuel: nat, more: nat)
    requires fuel <= more
    requires |ParseResults(doc, bucket, host, depth, net, fuel)| <= fuel
    ensures ParseResults(doc, bucket, host, depth, net, fuel) == ParseResults(doc, bucket, host, depth, net, more)
    decreases fuel
  {
    match RedirectTarget(doc)
    case Some(e) =>
      var url := FollowUrl(e);
      if url in net {
        assert fuel > 0;
        FuelSuffices(net[url], bucket, e, depth + 1, net, fuel - 1, more - 1);
      }
    case None =>
  }

  /**
    Nothing in the follower stops a redirect cycle: an endpoint whose reply
    redirects to itself produces one more line for every further redirect
    allowed.
   */
  lemma {:induction false} SelfRedirectNeverStops(doc: Document, bucket: string, host: string, depth: nat, net: Net, fuel: nat, e: string)
    requires RedirectTarget(doc) == Some(e)
    requires FollowUrl(e) in net && RedirectTarget(net[FollowUrl(e)]) == Some(e)
    ensures |ParseResults(doc, bucket, host, depth, net, fuel)| == fuel + 1
    decreases fuel
  {
    if fuel > 0 {
      SelfRedirectNeverStops(net[FollowUrl(e)], bucket, e, depth + 1, net, fuel - 1, e);
    }
  }
}
