/** The bounded listing walk behind a bucket's statistics. */
module StatsWalk {
  import opened Prelude

  const MAX_PAGES := 50
  const PAGE_SIZE := 1000
  const MAX_OBJECT_SIZE := 0x500_0000_0000
  const TWO_63 := 0x8000_0000_0000_0000
  const TWO_64 := 0x1_0000_0000_0000_0000

  /** One answer of the listing call: object sizes (some absent), whether more follows, and
      the token that continues. */
  datatype Page = Page(sizes: seq<Option<int>>, isTruncated: Option<bool>, next: Option<string>)

  type Reply = Result<Page>

  datatype Stats = Stats(bucket: string, objectCount: int, sizeBytes: int, truncated: bool, quotaBytes: int)

  /** Two's-complement wrap of a 64-bit sum. */
  function Wrap64(x: int): int {
    (x + TWO_63) % TWO_64 - TWO_63
  }

  function QuotaFor(quotas: map<string, int>, bucket: string): int {
    if bucket in quotas then quotas[bucket]
    else if "*" in quotas then quotas["*"]
    else 0
  }

  // ---------- what a walk means ----------

  predicate Continues(reply: Reply) {
    reply.Success? && reply.value.isTruncated == Some(true) && reply.value.next.Some?
  }

  /** The replies of a walk in progress: every one so far said that more follows. */
  predicate Ongoing(replies: seq<Reply>) {
    |replies| < MAX_PAGES && AllContinue(replies)
  }

  predicate AllContinue(replies: seq<Reply>) {
    forall i :: 0 <= i < |replies| ==> Continues(replies[i])
  }

  /** The replies of a walk that is over: the first one that does not continue is the last,
      or the page cap was reached. */
  predicate Finished(replies: seq<Reply>) {
    && 0 < |replies| <= MAX_PAGES
    && AllContinue(replies[..|replies| - 1])
    && (|replies| == MAX_PAGES || !Continues(replies[|replies| - 1]))
  }

  function Size(s: Option<int>): int {
    s.GetOr(0)
  }

  function SumSizes(sizes: seq<Option<int>>): int {
    if sizes == [] then 0 else SumSizes(sizes[..|sizes| - 1]) + Size(sizes[|sizes| - 1])
  }

  /** Objects on the pages received. */
  function Objects(replies: seq<Reply>): nat {
    if replies == [] then 0
    else
      var n := |replies| - 1;
      Objects(replies[..n]) + (if replies[n].Success? then |replies[n].value.sizes| else 0)
  }

  /** Bytes on the pages received. */
  function Bytes(replies: seq<Reply>): int {
    if replies == [] then 0
    else
      var n := |replies| - 1;
      Bytes(replies[..n]) + (if replies[n].Success? then SumSizes(replies[n].value.sizes) else 0)
  }

  /** The result of a finished walk; a failed listing call fails the walk. */
  function Outcome(bucket: string, quota: int, replies: seq<Reply>): Result<Stats>
    requires replies != []
  {
    var last := replies[|replies| - 1];
    if last.Failure? then Failure
    else Success(Stats(bucket, Wrap64(Objects(replies)), Wrap64(Bytes(replies)), Continues(last), quota))
  }

  // ---------- the loop ----------

  /** A backend answers the `n`th call of a walk, made with a continuation token. */
  type Backend = (nat, string) -> Reply

  /** The replies the walk collects from the `n`th call on. */
  function Replies(backend: Backend, n: nat, token: string): seq<Reply>
    decreases MAX_PAGES - n
  {
    if n >= MAX_PAGES then []
    else
      var reply := backend(n, token);
      [reply] + (if Continues(reply) then Replies(backend, n + 1, reply.value.next.value) else [])
  }

  function AllReplies(backend: Backend): seq<Reply> {
    Replies(backend, 0, "")
  }

  lemma {:induction false} WrapAdds(x: int, y: int)
    ensures Wrap64(Wrap64(x) + y) == Wrap64(x + y)
  {
  }

  /** The walk so far and what it will still receive. */
  ghost predicate Walks(backend: Backend, got: seq<Reply>, token: string) {
    && |got| <= MAX_PAGES && AllContinue(got)
    && AllReplies(backend) == got + Replies(backend, |got|, token)
  }

  lemma {:induction false} RepliesStep(backend: Backend, n: nat, token: string)
    ensures var reply := backend(n, token);
      Replies(backend, n, token)
      == if n >= MAX_PAGES then []
         else [reply] + (if Continues(reply) then Replies(backend, n + 1, reply.value.next.value) else [])
  {
  }

  lemma {:induction false} WalkStep(backend: Backend, got: seq<Reply>, token: string)
    requires Walks(backend, got, token) && |got| < MAX_PAGES
    ensures var out := backend(|got|, token);
      if Continues(out) then Walks(backend, got + [out], out.value.next.value)
      else AllReplies(backend) == got + [out] && Finished(got + [out])
  {
    hide Replies;
    var out := backend(|got|, token);
    var tail := if Continues(out) then Replies(backend, |got| + 1, out.value.next.value) else [];
    RepliesStep(backend, |got|, token);
    assert got + ([out] + tail) == (got + [out]) + tail;
    assert (got + [out])[..|got|] == got;
  }

  lemma {:induction false} WalkCapped(backend: Backend, got: seq<Reply>, token: string)
    requires Walks(backend, got, token) && |got| == MAX_PAGES
    ensures AllReplies(backend) == got && Finished(got) && Continues(got[|got| - 1])
  {
  }

  lemma {:induction false} TotalsStep(got: seq<Reply>, out: Reply)
    ensures Objects(got + [out]) == Objects(got) + (if out.Success? then |out.value.sizes| else 0)
    ensures Bytes(got + [out]) == Bytes(got) + (if out.Success? then SumSizes(out.value.sizes) else 0)
  {
    assert (got + [out])[..|got|] == got;
  }

  method ComputeBucketStats(bucket: string, quotas: map<string, int>, backend: Backend) returns (r: Result<Stats>)
    ensures Finished(AllReplies(backend))
    ensures r == Outcome(bucket, QuotaFor(quotas, bucket), AllReplies(backend))
  {
    hide Wrap64;
    hide Replies;
    hide AllReplies;
    hide Objects;
    hide Bytes;
    var count, size := 0, 0;
    var token := "";
    ghost var got: seq<Reply> := [];
    StartOfWalk(backend);
    for page := 0 to MAX_PAGES
      invariant |got| == page && Walks(backend, got, token)
      invariant count == Wrap64(Objects(got)) && size == Wrap64(Bytes(got))
    {
      var out := backend(page, token);
      WalkStep(backend, got, token);
      TotalsStep(got, out);
      if out.Failure? {
        return Failure;
      }
      count, size := AddPage(out.value.sizes, count, size, Objects(got), Bytes(got));
      got := got + [out];
      if out.value.isTruncated != Some(true) || out.value.next.None? {
        return Success(Stats(bucket, count, size, false, QuotaFor(quotas, bucket)));
      }
      token := out.value.next.value;
    }
    WalkCapped(backend, got, token);
    return Success(Stats(bucket, count, size, true, QuotaFor(quotas, bucket)));
  }

  lemma {:induction false} StartOfWalk(backend: Backend)
    ensures Walks(backend, [], "") && Wrap64(Objects([])) == 0 && Wrap64(Bytes([])) == 0
  {
  }

  /** Counts the objects of one page into the running 64-bit totals. */
  method AddPage(sizes: seq<Option<int>>, count0: int, size0: int, ghost objects: int, ghost bytes: int)
    returns (count: int, size: int)
    requires count0 == Wrap64(objects) && size0 == Wrap64(bytes)
    ensures count == Wrap64(objects + |sizes|)
    ensures size == Wrap64(bytes + SumSizes(sizes))
  {
    count, size := count0, size0;
    for i := 0 to |sizes|
      invariant count == Wrap64(objects + i)
      invariant size == Wrap64(bytes + SumSizes(sizes[..i]))
    {
      assert sizes[..i + 1][..i] == sizes[..i];
      WrapAdds(objects + i, 1);
      WrapAdds(bytes + SumSizes(sizes[..i]), Size(sizes[i]));
      count := Wrap64(count + 1);
      size := Wrap64(size + Size(sizes[i]));
    }
    assert sizes[..|sizes|] == sizes;
  }

  // ---------- against a fixed listing ----------

  /** The token that asks for page `i`. */
  function TokenOf(pages: seq<Page>, i: nat): string
    requires i <= |pages|
  {
    if i == 0 then "" else pages[i - 1].next.GetOr("")
  }

  /** The backend serves these pages in turn, and says that more follows on all but the
      last. */
  ghost predicate Serves(backend: Backend, pages: seq<Page>) {
    && pages != []
    && (forall i :: 0 <= i < |pages| ==> backend(i, TokenOf(pages, i)) == Success(pages[i]))
    && (forall i :: 0 <= i < |pages| ==>
          (pages[i].isTruncated == Some(true) && pages[i].next.Some? <==> i < |pages| - 1))
  }

  ghost predicate WithinLimits(pages: seq<Page>) {
    forall i :: 0 <= i < |pages| ==> SizesWithinLimits(pages[i].sizes)
  }

  ghost predicate SizesWithinLimits(sizes: seq<Option<int>>) {
    && |sizes| <= PAGE_SIZE
    && forall k :: 0 <= k < |sizes| ==> 0 <= Size(sizes[k]) <= MAX_OBJECT_SIZE
  }

  lemma {:induction false} ServedContinues(backend: Backend, pages: seq<Page>, i: nat)
    requires Serves(backend, pages) && i < |pages|
    ensures Continues(Success(pages[i])) <==> i < |pages| - 1
  {
  }

  function Received(pages: seq<Page>): seq<Reply> {
    seq(|pages|, i requires 0 <= i < |pages| => Success(pages[i]))
  }

  function TotalObjects(pages: seq<Page>): nat {
    if pages == [] then 0 else |pages[0].sizes| + TotalObjects(pages[1..])
  }

  function TotalBytes(pages: seq<Page>): int {
    if pages == [] then 0 else SumSizes(pages[0].sizes) + TotalBytes(pages[1..])
  }

  function FirstPages(pages: seq<Page>): seq<Page> {
    if |pages| > 50 then pages[..50] else pages
  }

  lemma {:induction false} RepliesAreFirstPages(backend: Backend, pages: seq<Page>, n: nat)
    requires Serves(backend, pages) && n < |pages| && n <= MAX_PAGES
    ensures Replies(backend, n, TokenOf(pages, n)) == Received(FirstPages(pages))[n..]
    decreases MAX_PAGES - n
  {
    var all := Received(FirstPages(pages));
    if n < MAX_PAGES {
      assert all[n] == Success(pages[n]) && all[n..] == [all[n]] + all[n + 1..];
      if n + 1 < |pages| {
        RepliesAreFirstPages(backend, pages, n + 1);
      }
    }
  }

  lemma {:induction false} AllRepliesAreFirstPages(backend: Backend, pages: seq<Page>)
    requires Serves(backend, pages)
    ensures AllReplies(backend) == Received(FirstPages(pages))
  {
    hide Replies;
    RepliesAreFirstPages(backend, pages, 0);
  }

  lemma {:induction false} ReceivedTotals(pages: seq<Page>)
    ensures Objects(Received(pages)) == TotalObjects(pages)
    ensures Bytes(Received(pages)) == TotalBytes(pages)
  {
    if pages != [] {
      var n := |pages| - 1;
      ReceivedTotals(pages[..n]);
      assert Received(pages)[..n] == Received(pages[..n]);
      TotalsSplit(pages, n);
      assert pages[n..] == [pages[n]];
    }
  }

  lemma {:induction false} TotalsSplit(pages: seq<Page>, n: nat)
    requires n <= |pages|
    ensures TotalObjects(pages) == TotalObjects(pages[..n]) + TotalObjects(pages[n..])
    ensures TotalBytes(pages) == TotalBytes(pages[..n]) + TotalBytes(pages[n..])
  {
    if n == 0 {
      assert pages[0..] == pages;
    } else {
      TotalsSplit(pages[1..], n - 1);
      assert pages[1..][..n - 1] == pages[..n][1..] && pages[1..][n - 1..] == pages[n..];
    }
  }

  lemma {:induction false} SumWithinLimits(sizes: seq<Option<int>>)
    requires SizesWithinLimits(sizes)
    ensures 0 <= SumSizes(sizes) <= |sizes| * MAX_OBJECT_SIZE
  {
    if sizes != [] {
      SumWithinLimits(sizes[..|sizes| - 1]);
    }
  }

  lemma {:induction false} TotalsWithinLimits(pages: seq<Page>)
    requires WithinLimits(pages)
    ensures 0 <= TotalObjects(pages) <= |pages| * PAGE_SIZE
    ensures 0 <= TotalBytes(pages) <= |pages| * PAGE_SIZE * MAX_OBJECT_SIZE
  {
    if pages != [] {
      SumWithinLimits(pages[0].sizes);
      TotalsWithinLimits(pages[1..]);
    }
  }

  lemma {:induction false} WrapInRange(x: int)
    requires -TWO_63 <= x < TWO_63
    ensures Wrap64(x) == x
  {
  }

  /** Against any fixed listing the walk reports the totals of its first fifty pages, as
      64-bit numbers, and whether there are more pages. */
  lemma {:induction false} WalkSumsFirstPages(bucket: string, quota: int, backend: Backend, pages: seq<Page>)
    requires Serves(backend, pages)
    ensures var replies := AllReplies(backend);
      replies != []
      && Outcome(bucket, quota, replies)
         == Success(Stats(bucket, Wrap64(TotalObjects(FirstPages(pages))), Wrap64(TotalBytes(FirstPages(pages))),
                          |pages| > 50, quota))
  {
    hide Wrap64, Replies, AllReplies, Objects, Bytes, TotalObjects, TotalBytes;
    AllRepliesAreFirstPages(backend, pages);
    ReceivedTotals(FirstPages(pages));
  }

  /** Within S3's object and page limits the 64-bit sums never wrap: the walk reports the
      true totals of a bucket of at most fifty pages, and of any other bucket a lower bound,
      marked as truncated. */
  lemma {:induction false} WalkIsExact(bucket: string, quota: int, backend: Backend, pages: seq<Page>)
    requires Serves(backend, pages) && WithinLimits(pages)
    ensures var replies := AllReplies(backend);
      replies != []
      && Outcome(bucket, quota, replies)
         == Success(Stats(bucket, TotalObjects(FirstPages(pages)), TotalBytes(FirstPages(pages)),
                          |pages| > 50, quota))
    ensures TotalObjects(FirstPages(pages)) <= TotalObjects(pages)
    ensures TotalBytes(FirstPages(pages)) <= TotalBytes(pages)
  {
    hide Wrap64, Replies, AllReplies, Objects, Bytes, TotalObjects, TotalBytes, Outcome;
    var first := FirstPages(pages);
    WalkSumsFirstPages(bucket, quota, backend, pages);
    assert WithinLimits(first);
    TotalsWithinLimits(first);
    WrapInRange(TotalObjects(first));
    WrapInRange(TotalBytes(first));
    if |pages| > MAX_PAGES {
      assert WithinLimits(pages[MAX_PAGES..]);
      TotalsWithinLimits(pages[MAX_PAGES..]);
      TotalsSplit(pages, MAX_PAGES);
    }
  }

  // ---------- the totals, object by object ----------

  /** The objects on some pages. */
  function Listed(pages: seq<Page>): seq<Option<int>> {
    if pages == [] then [] else pages[0].sizes + Listed(pages[1..])
  }

  /** A plain sum of integers. */
  function Sum(xs: seq<int>): int {
    if xs == [] then 0 else xs[0] + Sum(xs[1..])
  }

  /** The objects are those of the given sizes, and `unsized` more whose size is absent, in
      any order. */
  ghost predicate Holds(objects: seq<Option<int>>, sizes: seq<int>, unsized: nat) {
    multiset(objects) == multiset(Sized(sizes)) + multiset(Unsized(unsized))
  }

  function Sized(sizes: seq<int>): (objects: seq<Option<int>>)
    ensures |objects| == |sizes| && forall i :: 0 <= i < |sizes| ==> objects[i] == Some(sizes[i])
  {
    seq(|sizes|, i requires 0 <= i < |sizes| => Some(sizes[i]))
  }

  function Unsized(n: nat): (objects: seq<Option<int>>)
    ensures |objects| == n && forall i :: 0 <= i < n ==> objects[i] == None
  {
    seq(n, _ => None)
  }

  lemma {:induction false} SumSplits(a: seq<int>, b: seq<int>)
    ensures Sum(a + b) == Sum(a) + Sum(b)
  {
    if a == [] {
      assert a + b == b;
    } else {
      SumSplits(a[1..], b);
      assert (a + b)[1..] == a[1..] + b;
    }
  }

  lemma {:induction false} SumWithout(xs: seq<int>, k: nat)
    requires k < |xs|
    ensures Sum(xs) == Sum(xs[..k] + xs[k + 1..]) + xs[k]
  {
    var rest := [xs[k]] + xs[k + 1..];
    assert xs == xs[..k] + rest && rest[1..] == xs[k + 1..];
    SumSplits(xs[..k], rest);
    SumSplits(xs[..k], xs[k + 1..]);
  }

  lemma {:induction false} SizedWithout(sizes: seq<int>, k: nat)
    requires k < |sizes|
    ensures multiset(Sized(sizes)) == multiset(Sized(sizes[..k] + sizes[k + 1..])) + multiset{Some(sizes[k])}
  {
    var before, after, one := sizes[..k], sizes[k + 1..], [sizes[k]];
    assert sizes == before + (one + after);
    SizedJoins(before, one + after);
    SizedJoins(one, after);
    SizedJoins(before, after);
    assert Sized(one) == [Some(sizes[k])];
  }

  lemma {:induction false} SizedJoins(a: seq<int>, b: seq<int>)
    ensures multiset(Sized(a + b)) == multiset(Sized(a)) + multiset(Sized(b))
  {
    assert Sized(a + b) == Sized(a) + Sized(b);
  }

  lemma {:induction false} UnsizedStep(n: nat)
    requires n > 0
    ensures multiset(Unsized(n)) == multiset(Unsized(n - 1)) + multiset{None}
  {
    assert Unsized(n) == Unsized(n - 1) + [None];
  }

  lemma {:induction false} LastHeld(front: seq<Option<int>>, last: Option<int>, sizes: seq<int>, unsized: nat)
    returns (k: nat)
    requires Holds(front + [last], sizes, unsized)
    ensures last.Some? ==>
      k < |sizes| && sizes[k] == last.value && Holds(front, sizes[..k] + sizes[k + 1..], unsized)
    ensures last.None? ==> unsized > 0 && Holds(front, sizes, unsized - 1)
  {
    var all := multiset(front + [last]);
    assert all == multiset(front) + multiset{last};
    assert last in all;
    k := 0;
    if last.Some? {
      assert last in multiset(Sized(sizes));
      k :| 0 <= k < |sizes| && Sized(sizes)[k] == last;
      SizedWithout(sizes, k);
      SameRest(multiset(front), multiset(Sized(sizes[..k] + sizes[k + 1..])), multiset(Unsized(unsized)), last);
    } else {
      assert last in multiset(Unsized(unsized));
      UnsizedStep(unsized);
      SameRest(multiset(front), multiset(Unsized(unsized - 1)), multiset(Sized(sizes)), last);
    }
  }

  lemma {:induction false} SameRest<T>(a: multiset<T>, b: multiset<T>, c: multiset<T>, x: T)
    requires a + multiset{x} == (b + multiset{x}) + c
    ensures a == b + c && a == c + b
  {
    assert a == (a + multiset{x}) - multiset{x};
    assert b + c == ((b + multiset{x}) + c) - multiset{x};
  }

  lemma {:induction false} SumOfHeld(objects: seq<Option<int>>, sizes: seq<int>, unsized: nat)
    requires Holds(objects, sizes, unsized)
    ensures |objects| == |sizes| + unsized && SumSizes(objects) == Sum(sizes)
    decreases |objects|
  {
    assert |multiset(objects)| == |multiset(Sized(sizes)) + multiset(Unsized(unsized))|;
    if objects != [] {
      var front, last := objects[..|objects| - 1], objects[|objects| - 1];
      assert objects == front + [last];
      var k := LastHeld(front, last, sizes, unsized);
      hide Holds;
      if last.Some? {
        SumOfHeld(front, sizes[..k] + sizes[k + 1..], unsized);
        SumWithout(sizes, k);
      } else {
        SumOfHeld(front, sizes, unsized - 1);
      }
    }
  }

  lemma {:induction false} SumSizesSplits(a: seq<Option<int>>, b: seq<Option<int>>)
    ensures SumSizes(a + b) == SumSizes(a) + SumSizes(b)
  {
    if b == [] {
      assert a + b == a;
    } else {
      var n := |b| - 1;
      SumSizesSplits(a, b[..n]);
      assert (a + b)[..|a| + n] == a + b[..n];
    }
  }

  lemma {:induction false} TotalsAreListed(pages: seq<Page>)
    ensures TotalObjects(pages) == |Listed(pages)| && TotalBytes(pages) == SumSizes(Listed(pages))
  {
    if pages != [] {
      TotalsAreListed(pages[1..]);
      SumSizesSplits(pages[0].sizes, Listed(pages[1..]));
    }
  }

  /** Let the first fifty pages of a listing hold objects of the sizes `sizes` and `unsized`
      objects without a size. Then the walk reports their number and the plain sum of those
      sizes, provided both fit 64 bits, and says whether there are more pages. */
  lemma {:induction false} WalkReports(
      bucket: string, quota: int, backend: Backend, pages: seq<Page>, sizes: seq<int>, unsized: nat)
    requires Serves(backend, pages)
    requires Holds(Listed(if |pages| > 50 then pages[..50] else pages), sizes, unsized)
    requires |sizes| + unsized < TWO_63 && -TWO_63 <= Sum(sizes) < TWO_63
    ensures var replies := AllReplies(backend);
      replies != []
      && Outcome(bucket, quota, replies)
         == Success(Stats(bucket, |sizes| + unsized, Sum(sizes), |pages| > 50, quota))
  {
    hide Wrap64, Replies, AllReplies, TotalObjects, TotalBytes, Outcome, Holds, Listed, Sum, SumSizes;
    WalkSumsFirstPages(bucket, quota, backend, pages);
    TotalsAreListed(FirstPages(pages));
    SumOfHeld(Listed(FirstPages(pages)), sizes, unsized);
    WrapInRange(|sizes| + unsized);
    WrapInRange(Sum(sizes));
  }

  /** Two's-complement: the wrapped number differs by a multiple of 2^64 and fits 64 bits. */
  lemma {:induction false} WrapIs(x: int)
    ensures -0x8000_0000_0000_0000 <= Wrap64(x) < 0x8000_0000_0000_0000
    ensures (x - Wrap64(x)) % 0x1_0000_0000_0000_0000 == 0
  {
    var k := (x + TWO_63) / TWO_64;
    assert x - Wrap64(x) == k * TWO_64;
  }

  // ---------- failures and quotas ----------

  /** The backend serves `pages`, all with more to follow, and then fails. */
  ghost predicate FailsAfter(backend: Backend, pages: seq<Page>) {
    && (forall i :: 0 <= i < |pages| ==>
          && backend(i, TokenOf(pages, i)) == Success(pages[i])
          && pages[i].isTruncated == Some(true) && pages[i].next.Some?)
    && backend(|pages|, TokenOf(pages, |pages|)) == Failure
  }

  lemma {:induction false} ServedBeforeFailure(backend: Backend, pages: seq<Page>, n: nat)
    requires FailsAfter(backend, pages) && n < |pages|
    ensures backend(n, TokenOf(pages, n)) == Success(pages[n]) && Continues(Success(pages[n]))
    ensures pages[n].next.value == TokenOf(pages, n + 1)
  {
  }

  lemma {:induction false} RepliesUntilFailure(backend: Backend, pages: seq<Page>, n: nat)
    requires FailsAfter(backend, pages) && n <= |pages| < 50
    ensures Replies(backend, n, TokenOf(pages, n)) == Received(pages[n..]) + [Failure]
    decreases |pages| - n
  {
    hide Replies, TokenOf, Continues, FailsAfter;
    RepliesStep(backend, n, TokenOf(pages, n));
    if n < |pages| {
      ServedBeforeFailure(backend, pages, n);
      RepliesUntilFailure(backend, pages, n + 1);
      ReceivedSplits(pages, n);
    } else {
      FailsAtEnd(backend, pages);
    }
  }

  lemma {:induction false} FailsAtEnd(backend: Backend, pages: seq<Page>)
    requires FailsAfter(backend, pages)
    ensures backend(|pages|, TokenOf(pages, |pages|)) == Failure && !Continues(Failure)
    ensures Received(pages[|pages|..]) == []
  {
  }

  lemma {:induction false} ReceivedSplits(pages: seq<Page>, n: nat)
    requires n < |pages|
    ensures Received(pages[n..]) + [Failure] == [Success(pages[n])] + (Received(pages[n + 1..]) + [Failure])
  {
    assert Received(pages[n..]) == [Success(pages[n])] + Received(pages[n + 1..]);
  }

  /** A listing call that fails within the first fifty fails the whole walk, whatever was
      counted before. */
  lemma {:induction false} FailedCallFailsWalk(bucket: string, quota: int, backend: Backend, pages: seq<Page>)
    requires FailsAfter(backend, pages) && |pages| < 50
    ensures AllReplies(backend) != [] && Outcome(bucket, quota, AllReplies(backend)) == Failure
  {
    assert TokenOf(pages, 0) == "";
    RepliesUntilFailure(backend, pages, 0);
    hide Replies, Bytes, Objects;
  }

  /** A bucket's own quota wins; a bucket without one follows the default, and without either
      there is none. */
  lemma {:induction false} QuotaForIs(quotas: map<string, int>, bucket: string, quota: int)
    ensures QuotaFor(quotas[bucket := quota], bucket) == quota
    ensures bucket !in quotas ==> QuotaFor(quotas["*" := quota], bucket) == quota
    ensures bucket !in quotas && "*" !in quotas ==> QuotaFor(quotas, bucket) == 0
  {
  }
}
