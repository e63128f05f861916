/** The two bucket listings: the web API's, and the S3 proxy's. */
module Listings {
  import opened Prelude
  import opened Text
  import opened Acl
  import opened AclTheorems

  /** What the storage backend reports: absent, failing, or bucket names, some missing. */
  type Backend = Option<Result<seq<Option<string>>>>

  function Present(raw: seq<Option<string>>): seq<string> {
    if raw == [] then []
    else
      var n := |raw| - 1;
      Present(raw[..n]) + (if raw[n].Some? then [raw[n].value] else [])
  }

  lemma {:induction false} PresentStep(raw: seq<Option<string>>, i: nat)
    requires i < |raw|
    ensures raw[i].None? ==> Present(raw[..i + 1]) == Present(raw[..i])
    ensures raw[i].Some? ==> Present(raw[..i + 1]) == Present(raw[..i]) + [raw[i].value]
  {
    assert raw[..i + 1][..i] == raw[..i];
  }

  /** The names a reachable backend lists. */
  function NamesListed(backend: Backend): seq<string> {
    match backend
    case Some(Success(raw)) => Present(raw)
    case _ => []
  }

  // ---------- the web API listing ----------

  /** The wildcard rights that reach a bucket through the backend's own list. */
  function Expanded(groups: seq<string>, names: seq<string>, bucket: string): Grants {
    if Named(groups, WILDCARD) && bucket in names then Merged(groups, WILDCARD) else NONE
  }

  ghost predicate IsListing(groups: seq<string>, names: seq<string>, rows: seq<Permission>) {
    && StrictlySorted(NamesOf(rows))
    && (forall b :: b in NamesOf(rows) <==>
          (b != WILDCARD && Named(groups, b)) || (Named(groups, WILDCARD) && b in names))
    && (forall i :: 0 <= i < |rows| ==>
          rows[i].grants == Explicit(groups, rows[i].name).Or(Expanded(groups, names, rows[i].name)))
  }

  /** The listing while it is being merged: `order` names the keys of `perms`. */
  ghost predicate Merging(groups: seq<string>, names: seq<string>, perms: map<string, Grants>, order: seq<string>) {
    && Distinct(order) && Elements(order) == perms.Keys
    && (forall b :: b in perms <==> (b != WILDCARD && Named(groups, b)) || (Named(groups, WILDCARD) && b in names))
    && (forall b :: b in perms ==> perms[b] == Explicit(groups, b).Or(Expanded(groups, names, b)))
  }

  method FromTable(groups: seq<string>) returns (perms: map<string, Grants>, order: seq<string>)
    ensures Merging(groups, [], perms, order)
  {
    hide Merged;
    hide Named;
    hide Less;
    var table := EffectiveBuckets(groups);
    perms, order := map[], [];
    for i := 0 to |table|
      invariant order == NamesOf(table)[..i]
      invariant perms.Keys == Elements(order)
      invariant forall b :: b in perms ==> perms[b] == Explicit(groups, b)
    {
      assert NamesOf(table)[i] == table[i].name && NamesOf(table)[i] in NamesOf(table);
      perms, order := perms[table[i].name := table[i].grants], order + [table[i].name];
    }
    assert order == NamesOf(table);
    StrictlySortedDistinct(order);
    assert forall b :: b in order <==> b in Elements(order);
  }

  lemma {:induction false} MergedWith(
      groups: seq<string>, names: seq<string>, name: string, perms: map<string, Grants>, order: seq<string>)
    requires Named(groups, WILDCARD) && Merging(groups, names, perms, order)
    ensures var was := if name in perms then perms[name] else NONE;
      Merging(groups, names + [name], perms[name := was.Or(Merged(groups, WILDCARD))],
              if name in perms then order else order + [name])
  {
    hide Merged;
    hide Named;
    assert name in order <==> name in Elements(order);
    if name !in perms && name != WILDCARD {
      UnnamedHasNoGrants(groups, name);
    }
  }

  method HandleListBuckets(groups: seq<string>, backend: Backend) returns (r: Result<seq<Permission>>)
    ensures r.Failure? <==> Named(groups, WILDCARD) && backend == Some(Failure)
    ensures r.Success? ==> IsListing(groups, NamesListed(backend), r.value)
  {
    hide Merged;
    hide Named;
    var perms, order := FromTable(groups);
    var wild, found := WildcardGrant(groups);
    if found && backend.Some? {
      if backend.value.Failure? {
        return Failure;
      }
      perms, order := Expand(groups, wild, backend.value.value, perms, order);
    } else {
      assert forall b :: Expanded(groups, [], b) == Expanded(groups, NamesListed(backend), b);
    }
    var rows := RowsOf(perms, order);
    r := Success(rows);
  }

  /** Unions the wildcard rights onto every bucket the backend lists. */
  method Expand(
      groups: seq<string>, wild: Grants, raw: seq<Option<string>>, perms0: map<string, Grants>, order0: seq<string>)
    returns (perms: map<string, Grants>, order: seq<string>)
    requires Named(groups, WILDCARD) && wild == Merged(groups, WILDCARD)
    requires Merging(groups, [], perms0, order0)
    ensures Merging(groups, Present(raw), perms, order)
  {
    hide Merged;
    hide Named;
    hide Merging;
    perms, order := perms0, order0;
    for i := 0 to |raw|
      invariant Merging(groups, Present(raw[..i]), perms, order)
    {
      PresentStep(raw, i);
      if raw[i].None? {
        continue;
      }
      var name := raw[i].value;
      ghost var before := perms;
      MergedWith(groups, Present(raw[..i]), name, perms, order);
      if name !in perms {
        perms, order := perms[name := NONE], order + [name];
      }
      perms := perms[name := perms[name].Or(wild)];
      assert perms == before[name := (if name in before then before[name] else NONE).Or(wild)];
    }
    assert raw[..|raw|] == raw;
  }

  method RowsOf(perms: map<string, Grants>, order: seq<string>) returns (rows: seq<Permission>)
    requires Distinct(order) && Elements(order) == perms.Keys
    ensures StrictlySorted(NamesOf(rows))
    ensures forall b :: b in NamesOf(rows) <==> b in perms
    ensures forall i :: 0 <= i < |rows| ==> rows[i].name in perms && rows[i].grants == perms[rows[i].name]
  {
    var sorted := Sort(order);
    SortSpec(order);
    assert forall b :: b in sorted <==> b in Elements(sorted);
    rows := [];
    for i := 0 to |sorted|
      invariant NamesOf(rows) == sorted[..i]
      invariant forall k :: 0 <= k < |rows| ==> rows[k].name in perms && rows[k].grants == perms[rows[k].name]
    {
      rows := rows + [Permission(sorted[i], perms[sorted[i]])];
    }
    assert sorted[..|sorted|] == sorted;
  }

  // ---------- the proxy listing ----------

  predicate Visible(groups: seq<string>, bucket: string) {
    Named(groups, WILDCARD) || (bucket != WILDCARD && Named(groups, bucket))
  }

  function Filtered(groups: seq<string>, names: seq<string>): seq<string> {
    if names == [] then []
    else
      var n := |names| - 1;
      Filtered(groups, names[..n]) + (if Visible(groups, names[n]) then [names[n]] else [])
  }

  lemma {:induction false} FilteredStep(groups: seq<string>, names: seq<string>, name: string)
    ensures Visible(groups, name) ==> Filtered(groups, names + [name]) == Filtered(groups, names) + [name]
    ensures !Visible(groups, name) ==> Filtered(groups, names + [name]) == Filtered(groups, names)
  {
  }

  method NamedBuckets(groups: seq<string>) returns (effective: set<string>)
    ensures forall b :: b in effective <==> b != WILDCARD && Named(groups, b)
  {
    hide Named;
    var table := EffectiveBuckets(groups);
    effective := {};
    for i := 0 to |table|
      invariant effective == Elements(NamesOf(table)[..i])
    {
      assert NamesOf(table)[..i + 1] == NamesOf(table)[..i] + [table[i].name];
      effective := effective + {table[i].name};
    }
    assert NamesOf(table)[..|table|] == NamesOf(table);
    assert forall b :: b in effective <==> b in NamesOf(table);
  }

  method HandleProxyListBuckets(groups: seq<string>, backend: Backend) returns (r: Result<seq<string>>)
    ensures r.Success? <==> backend.Some? && backend.value.Success?
    ensures r.Success? ==> r.value == Filtered(groups, NamesListed(backend))
  {
    hide Named;
    if backend.None? || backend.value.Failure? {
      return Failure;
    }
    var raw := backend.value.value;
    var effective := NamedBuckets(groups);
    var _, hasWildcard := WildcardGrant(groups);
    var filtered: seq<string> := [];
    for i := 0 to |raw|
      invariant filtered == Filtered(groups, Present(raw[..i]))
    {
      PresentStep(raw, i);
      if raw[i].None? {
        continue;
      }
      FilteredStep(groups, Present(raw[..i]), raw[i].value);
      if hasWildcard || raw[i].value in effective {
        filtered := filtered + [raw[i].value];
      }
    }
    assert raw[..|raw|] == raw;
    return Success(filtered);
  }

  // ---------- the listings against the decision ----------

  /** The rights `CheckAccess` gives on a bucket, in the three flags a row shows. */
  function Decided(groups: seq<string>, bucket: string): Grants {
    Grants(Granted(groups, bucket, "GET"), Granted(groups, bucket, "PUT"), Granted(groups, bucket, "DELETE"))
  }

  lemma {:induction false} DecidedMerges(groups: seq<string>, bucket: string)
    ensures Decided(groups, bucket) == Merged(groups, bucket).Or(Merged(groups, WILDCARD))
    ensures Decided(groups, bucket) == Explicit(groups, bucket).Or(Merged(groups, WILDCARD))
  {
    GrantedSplits(groups, bucket, "GET");
    GrantedSplits(groups, bucket, "PUT");
    GrantedSplits(groups, bucket, "DELETE");
  }

  lemma {:induction false} ListingLists(
      groups: seq<string>, names: seq<string>, rows: seq<Permission>, bucket: string)
    requires IsListing(groups, names, rows)
    ensures Listed(rows, bucket) == Explicit(groups, bucket).Or(Expanded(groups, names, bucket))
  {
    ListedIn(rows, bucket);
    if bucket in NamesOf(rows) {
      var i :| 0 <= i < |rows| && rows[i].name == bucket && rows[i].grants == Listed(rows, bucket);
    } else if bucket != WILDCARD {
      UnnamedHasNoGrants(groups, bucket);
    }
  }

  /** No row shows a right the decision would refuse. */
  lemma {:induction false} ListingIsSound(
      groups: seq<string>, names: seq<string>, rows: seq<Permission>, bucket: string)
    requires IsListing(groups, names, rows)
    ensures Listed(rows, bucket).Or(Decided(groups, bucket)) == Decided(groups, bucket)
  {
    ListingLists(groups, names, rows, bucket);
    DecidedMerges(groups, bucket);
  }

  /** A row shows exactly the decided rights when the backend lists its bucket; a bucket
      the backend does not list misses the wildcard rights, so its row is exact only if
      those add nothing to the named ones. */
  lemma {:induction false} RowIsExactIff(
      groups: seq<string>, names: seq<string>, rows: seq<Permission>, bucket: string)
    requires IsListing(groups, names, rows)
    ensures Listed(rows, bucket) == Decided(groups, bucket)
       <==> bucket in names
            || Explicit(groups, bucket).Or(Merged(groups, WILDCARD)) == Explicit(groups, bucket)
  {
    ListingLists(groups, names, rows, bucket);
    DecidedMerges(groups, bucket);
    if !Named(groups, WILDCARD) {
      UnnamedHasNoGrants(groups, WILDCARD);
    }
  }

  /** What `a-ro` and `*-rw` name and give. */
  lemma {:induction false} ReaderAndWildcard(bucket: string)
    ensures var groups := ["a-ro", "*-rw"];
      && (Named(groups, bucket) <==> bucket == "a" || bucket == WILDCARD)
      && Merged(groups, "a") == Grants(true, false, false)
      && Merged(groups, WILDCARD) == Grants(true, true, true)
  {
    ParseGroupIff("a-ro", "a", "ro");
    ParseGroupIff("*-rw", WILDCARD, "rw");
    hide ParseGroup;
    assert [] + ["a-ro"] + ["*-rw"] == ["a-ro", "*-rw"] && [] + ["a-ro"] == ["a-ro"];
    forall b | b in [bucket, "a", WILDCARD]
      ensures Named(["a-ro", "*-rw"], b) <==> Named([], b) || Names("a-ro", b) || Names("*-rw", b)
      ensures Merged(["a-ro", "*-rw"], b) == Merged([], b).Or(GivenBy("a-ro", b)).Or(GivenBy("*-rw", b))
    {
      NamedStep([], "a-ro", b);
      NamedStep(["a-ro"], "*-rw", b);
    }
  }

  /** The listing shows a caller with `a-ro` and `*-rw` a read-only row for a bucket `a` that
      the backend does not list, although the caller may write to it. */
  lemma {:induction false} UnlistedBucketFallsShort(rows: seq<Permission>)
    requires IsListing(["a-ro", "*-rw"], [], rows)
    ensures Listed(rows, "a") == Grants(true, false, false)
    ensures Decided(["a-ro", "*-rw"], "a") == Grants(true, true, true)
  {
    hide Merged, Named, IsListing, Listed, Decided;
    var groups := ["a-ro", "*-rw"];
    ReaderAndWildcard("a");
    ListingLists(groups, [], rows, "a");
    DecidedMerges(groups, "a");
  }

  /** Every policy allows reading or writing. */
  lemma {:induction false} NamedGroupAllows(group: string, bucket: string)
    requires Names(group, bucket) || Names(group, WILDCARD)
    ensures Allows(group, bucket, "GET") || Allows(group, bucket, "PUT")
  {
    var p := ParseGroup(group).value.1;
    assert MethodGranted(VALID_POLICIES[p], "GET") || MethodGranted(VALID_POLICIES[p], "PUT");
  }

  /** The proxy shows a bucket exactly when some method on it would be granted, and then
      one of the three rights of a row is. */
  lemma {:induction false} VisibleIffReachable(groups: seq<string>, bucket: string)
    ensures Visible(groups, bucket) <==> exists m :: Granted(groups, bucket, m)
    ensures Visible(groups, bucket) <==> Decided(groups, bucket) != NONE
  {
    forall m | Granted(groups, bucket, m) ensures Decided(groups, bucket) != NONE {
      GrantedSplits(groups, bucket, m);
      DecidedMerges(groups, bucket);
    }
    if Visible(groups, bucket) {
      var i :| 0 <= i < |groups| && (Names(groups[i], bucket) || Names(groups[i], WILDCARD));
      NamedGroupAllows(groups[i], bucket);
      assert Granted(groups, bucket, "GET") || Granted(groups, bucket, "PUT");
    }
  }

  lemma {:induction false} FilteredMembers(groups: seq<string>, names: seq<string>, bucket: string)
    ensures bucket in Filtered(groups, names) <==> bucket in names && Visible(groups, bucket)
  {
    if names != [] {
      var n := |names| - 1;
      FilteredMembers(groups, names[..n], bucket);
      assert names == names[..n] + [names[n]];
    }
  }

  /** The two listings show the same buckets, as far as the backend lists them. */
  lemma {:induction false} ListingsAgree(
      groups: seq<string>, names: seq<string>, rows: seq<Permission>, bucket: string)
    requires IsListing(groups, names, rows)
    ensures bucket in Filtered(groups, names) <==> bucket in NamesOf(rows) && bucket in names
  {
    FilteredMembers(groups, names, bucket);
  }

  // ---------- what is listed, name by name ----------

  /** The backend's names in its own order, without the missing ones. */
  lemma {:induction false} NamesListedIs(before: seq<Option<string>>, name: string, after: seq<Option<string>>)
    ensures NamesListed(Some(Success(before + [Some(name)] + after)))
         == NamesListed(Some(Success(before))) + [name] + NamesListed(Some(Success(after)))
    ensures NamesListed(Some(Success(before + [None] + after)))
         == NamesListed(Some(Success(before))) + NamesListed(Some(Success(after)))
    ensures NamesListed(Some(Success([]))) == [] && NamesListed(None) == [] && NamesListed(Some(Failure)) == []
  {
    hide Present;
    PresentNothing();
    PresentSplits(before + [Some(name)], after);
    PresentSplits(before + [None], after);
    PresentEnds(before, Some(name));
    PresentEnds(before, None);
  }

  lemma {:induction false} PresentNothing()
    ensures Present([]) == []
  {
  }

  lemma {:induction false} PresentEnds(a: seq<Option<string>>, x: Option<string>)
    ensures Present(a + [x]) == Present(a) + (if x.Some? then [x.value] else [])
  {
    assert (a + [x])[..|a|] == a;
  }

  lemma {:induction false} PresentSplits(a: seq<Option<string>>, b: seq<Option<string>>)
    ensures Present(a + b) == Present(a) + Present(b)
  {
    if b == [] {
      assert a + b == a;
    } else {
      var n := |b| - 1;
      PresentSplits(a, b[..n]);
      assert (a + b)[..|a| + n] == a + b[..n];
    }
  }

  /** The proxy's filter keeps order and repetition: each name stands or falls alone. */
  lemma {:induction false} FilteredSplits(groups: seq<string>, a: seq<string>, b: seq<string>)
    ensures Filtered(groups, a + b) == Filtered(groups, a) + Filtered(groups, b)
  {
    if b == [] {
      assert a + b == a;
    } else {
      var n := |b| - 1;
      FilteredSplits(groups, a, b[..n]);
      assert (a + b)[..|a| + n] == a + b[..n];
    }
  }

  lemma {:induction false} FilteredOne(groups: seq<string>, name: string)
    ensures Filtered(groups, [name]) == if exists m :: Granted(groups, name, m) then [name] else []
  {
    hide Granted, Named;
    VisibleIffReachable(groups, name);
    assert [name][..0] == [];
  }
}
