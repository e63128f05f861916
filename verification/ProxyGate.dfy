/** The S3 proxy's gate: which requests reach the backend, and what a write must address. */
module ProxyGate {
  import opened Prelude
  import opened Text
  import opened Acl

  /** A request with its token already looked up and its URL already parsed. `adminQuery`
      says that some query key names an administrative sub-resource. */
  datatype Request = Request(
    hasToken: bool, verified: bool, verb: string, path: string, parses: bool, adminQuery: bool)

  datatype Answer =
    | Unauthorized
    | InvalidToken
    | ListBuckets
    | BucketRequired
    | AdminBlocked
    | Forbidden
    | NoBackend
    | Forward

  function PathBucket(path: string): string {
    var p := TrimPrefixChar(path, '/');
    match IndexOf(p, '/')
    case None => p
    case Some(k) => p[..k]
  }

  predicate Writes(m: string) {
    m == "PUT" || m == "POST" || m == "DELETE"
  }

  function Segments(path: string): seq<string> {
    Split(TrimRight(TrimLeft(if path == "" then "/" else path, '/'), '/'), '/')
  }

  predicate IsAdminOperation(r: Request) {
    !r.parses || r.adminQuery || (|Segments(r.path)| == 1 && Writes(r.verb))
  }

  function Serve(r: Request, groups: seq<string>, hasForwarder: bool): Answer {
    if !r.hasToken then Unauthorized
    else if !r.verified then InvalidToken
    else if PathBucket(r.path) == "" then
      if r.verb == "GET" then ListBuckets else BucketRequired
    else if IsAdminOperation(r) then AdminBlocked
    else if !Granted(groups, PathBucket(r.path), r.verb) then Forbidden
    else if !hasForwarder then NoBackend
    else Forward
  }

  /** The path addresses an object: something other than slashes follows the bucket. */
  ghost predicate HasObjectKey(path: string) {
    exists i :: 1 + |PathBucket(path)| <= i < |path| && path[i] != '/'
  }

  lemma {:induction false} TrimRightKeeps(s: string, c: char)
    ensures var r := TrimRight(s, c);
      |r| <= |s| && r == s[..|r|] && (r != "" ==> r[|r| - 1] != c)
      && (forall i :: |r| <= i < |s| ==> s[i] == c)
    decreases |s|
  {
    if s != "" && s[|s| - 1] == c {
      TrimRightKeeps(s[..|s| - 1], c);
    }
  }

  lemma {:induction false} FirstSeparator(s: string, head: string, c: char)
    requires head + [c] <= s && c !in head
    ensures IndexOf(s, c) == Some(|head|)
    decreases |head|
  {
    assert s[|head|] == (head + [c])[|head|];
    if head != "" {
      assert s[0] == head[0] && head == [head[0]] + head[1..];
      FirstSeparator(s[1..], head[1..], c);
    }
  }

  lemma {:induction false} BucketPrefix(path: string)
    requires path != "" && path[0] == '/' && PathBucket(path) != ""
    ensures var s, b := path[1..], PathBucket(path);
      && '/' !in b && b <= s && (s != b ==> b + ['/'] <= s)
      && TrimLeft(path, '/') == s
  {
    var s, b := path[1..], PathBucket(path);
    assert b == s[..|b|] && b[0] == s[0];
    TrimLeftFixed(s, '/');
  }

  /** What the admin test splits: the path between its outer slashes. It starts with the
      bucket, and what follows the bucket starts with a slash. */
  lemma {:induction false} TrimmedPath(path: string)
    requires path != "" && path[0] == '/' && PathBucket(path) != ""
    ensures var b, r := PathBucket(path), TrimRight(path[1..], '/');
      && Segments(path) == Split(r, '/')
      && '/' !in b && b <= r && (r != b ==> b + ['/'] <= r)
  {
    var s, b := path[1..], PathBucket(path);
    BucketPrefix(path);
    TrimRightKeeps(s, '/');
    hide PathBucket, TrimLeft, TrimRight;
    assert s[|b| - 1] == b[|b| - 1] && b[|b| - 1] in b;
  }

  lemma {:induction false} ObjectKeyIff(path: string)
    requires path != "" && path[0] == '/' && PathBucket(path) != ""
    ensures HasObjectKey(path) <==> TrimRight(path[1..], '/') != PathBucket(path)
  {
    var s, b := path[1..], PathBucket(path);
    var r := TrimRight(s, '/');
    TrimmedPath(path);
    TrimRightKeeps(s, '/');
    hide PathBucket, TrimRight;
    assert forall i :: 1 <= i < |path| ==> path[i] == s[i - 1];
    if r != b {
      assert path[|r|] == r[|r| - 1];
    }
  }

  /** The bucket the gate checks is the first segment the admin test sees, and that test
      sees more than one segment exactly when the path addresses an object. */
  lemma {:induction false} SegmentsOfBucketPath(path: string)
    requires path != "" && path[0] == '/' && PathBucket(path) != ""
    ensures Segments(path)[0] == PathBucket(path)
    ensures |Segments(path)| > 1 <==> HasObjectKey(path)
  {
    var b, r := PathBucket(path), TrimRight(path[1..], '/');
    TrimmedPath(path);
    ObjectKeyIff(path);
    hide PathBucket, TrimRight, Segments, HasObjectKey;
    if r != b {
      FirstSeparator(r, b, '/');
      assert r[..|b|] == b;
    }
  }

  /** The bucket of a path: what stands between one leading slash and the next slash. */
  lemma {:induction false} PathBucketIs(bucket: string, rest: string)
    requires '/' !in bucket
    ensures PathBucket("/" + bucket) == bucket && PathBucket("/" + bucket + "/" + rest) == bucket
    ensures bucket != "" ==> PathBucket(bucket) == bucket && PathBucket(bucket + "/" + rest) == bucket
  {
    hide IndexOf;
    assert ("/" + bucket)[1..] == bucket;
    assert ("/" + bucket + "/" + rest)[1..] == bucket + "/" + rest;
    FirstSeparator(bucket + "/" + rest, bucket, '/');
    assert (bucket + "/" + rest)[..|bucket|] == bucket;
    NoSeparator(bucket, '/');
  }

  lemma {:induction false} NoSeparator(s: string, c: char)
    requires c !in s
    ensures IndexOf(s, c) == None
  {
  }

  /** An object key: something other than slashes after `/bucket/`. */
  lemma {:induction false} HasObjectKeyIs(bucket: string, rest: string)
    requires '/' !in bucket
    ensures !HasObjectKey("/" + bucket)
    ensures HasObjectKey("/" + bucket + "/" + rest) <==> exists i :: 0 <= i < |rest| && rest[i] != '/'
  {
    PathBucketIs(bucket, rest);
    hide PathBucket;
    var path := "/" + bucket + "/" + rest;
    var n := |bucket| + 2;
    assert path[n - 1] == '/';
    assert forall i :: 0 <= i < |rest| ==> path[n + i] == rest[i];
    if i :| 1 + |bucket| <= i < |path| && path[i] != '/' {
      assert rest[i - n] != '/';
    }
    if i :| 0 <= i < |rest| && rest[i] != '/' {
      assert path[n + i] != '/';
    }
  }

  /** The request would change a bucket as a whole. */
  ghost predicate WritesBucket(r: Request) {
    r.verb in {"PUT", "POST", "DELETE"} && !HasObjectKey(r.path)
  }

  /** Exactly the verified, granted requests reach the backend, and a write among them
      always addresses an object, never a whole bucket. */
  lemma {:induction false} ForwardedIff(r: Request, groups: seq<string>, hasForwarder: bool)
    requires r.path != "" && r.path[0] == '/'
    ensures Serve(r, groups, hasForwarder) == Forward
       <==> && r.hasToken && r.verified && r.parses && !r.adminQuery && hasForwarder
            && PathBucket(r.path) != "" && Granted(groups, PathBucket(r.path), r.verb)
            && (r.verb in {"PUT", "POST", "DELETE"} ==> HasObjectKey(r.path))
  {
    if PathBucket(r.path) != "" {
      SegmentsOfBucketPath(r.path);
    }
  }

  /** Without a verified token nothing is served, whatever the path. */
  lemma {:induction false} TokenFirst(r: Request, groups: seq<string>, hasForwarder: bool)
    ensures Serve(r, groups, hasForwarder) == Unauthorized <==> !r.hasToken
    ensures Serve(r, groups, hasForwarder) == InvalidToken <==> r.hasToken && !r.verified
  {
  }

  /** What a caller with a verified token gets. The refusals come in this order: no bucket, an
      administrative request or a write to a whole bucket, no grant, no backend. */
  lemma {:induction false} AnswerIff(r: Request, groups: seq<string>, hasForwarder: bool)
    requires r.hasToken && r.verified && r.path != "" && r.path[0] == '/'
    ensures var answer, bucket := Serve(r, groups, hasForwarder), PathBucket(r.path);
      var admin, granted := !r.parses || r.adminQuery || WritesBucket(r), Granted(groups, bucket, r.verb);
      && (answer == ListBuckets <==> bucket == "" && r.verb == "GET")
      && (answer == BucketRequired <==> bucket == "" && r.verb != "GET")
      && (answer == AdminBlocked <==> bucket != "" && admin)
      && (answer == Forbidden <==> bucket != "" && !admin && !granted)
      && (answer == NoBackend <==> bucket != "" && !admin && granted && !hasForwarder)
      && (answer == Forward <==> bucket != "" && !admin && granted && hasForwarder)
  {
    hide Granted;
    if PathBucket(r.path) != "" {
      SegmentsOfBucketPath(r.path);
    }
  }
}
