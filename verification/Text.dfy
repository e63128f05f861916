/** The string operations the models share, and the order Go sorts strings by. */
module Text {
  import opened Prelude

  function TrimLeft(s: string, c: char): string {
    if s != "" && s[0] == c then TrimLeft(s[1..], c) else s
  }

  function TrimRight(s: string, c: char): string {
    if s != "" && s[|s| - 1] == c then TrimRight(s[..|s| - 1], c) else s
  }

  function TrimPrefixChar(s: string, c: char): string {
    if s != "" && s[0] == c then s[1..] else s
  }

  function IndexOf(s: string, c: char): (r: Option<nat>)
    ensures r.None? <==> c !in s
    ensures r.Some? ==> r.value < |s| && s[r.value] == c && c !in s[..r.value]
  {
    if s == "" then None
    else if s[0] == c then Some(0)
    else
      match IndexOf(s[1..], c)
      case None => None
      case Some(k) => assert s[..k + 1] == [s[0]] + s[1..][..k]; Some(k + 1)
  }

  function LastIndexOf(s: string, c: char): (r: Option<nat>)
    ensures r.None? <==> c !in s
    ensures r.Some? ==> r.value < |s| && s[r.value] == c && c !in s[r.value + 1..]
  {
    if s == "" then None
    else
      var n := |s| - 1;
      if s[n] == c then Some(n)
      else
        assert s == s[..n] + [s[n]];
        match LastIndexOf(s[..n], c)
        case None => None
        case Some(k) => assert s[k + 1..] == s[..n][k + 1..] + [s[n]]; Some(k)
  }

  /** The pieces between separators; never empty. */
  function Split(s: string, sep: char): (parts: seq<string>)
    ensures |parts| >= 1
  {
    match IndexOf(s, sep)
    case None => [s]
    case Some(k) => [s[..k]] + Split(s[k + 1..], sep)
  }

  function Join(parts: seq<string>, sep: char): string
    requires |parts| >= 1
  {
    if |parts| == 1 then parts[0] else parts[0] + [sep] + Join(parts[1..], sep)
  }

  lemma {:induction false} JoinCons(head: string, rest: seq<string>, sep: char)
    requires |rest| >= 1
    ensures Join([head] + rest, sep) == head + [sep] + Join(rest, sep)
  {
    assert ([head] + rest)[1..] == rest;
  }

  lemma {:induction false} SplitCons(s: string, sep: char)
    ensures match IndexOf(s, sep)
      case None => Split(s, sep) == [s]
      case Some(k) => Split(s, sep) == [s[..k]] + Split(s[k + 1..], sep)
  {
  }

  lemma {:induction false} JoinOne(s: string, sep: char)
    ensures Join([s], sep) == s
  {
  }

  lemma {:induction false} JoinSplit(s: string, sep: char)
    ensures Join(Split(s, sep), sep) == s
    decreases |s|
  {
    hide Split, Join, IndexOf;
    SplitCons(s, sep);
    match IndexOf(s, sep)
    case None => JoinOne(s, sep);
    case Some(k) =>
      JoinSplit(s[k + 1..], sep);
      JoinCons(s[..k], Split(s[k + 1..], sep), sep);
      Parted(s, k);
  }

  /** No piece holds a separator. */
  lemma {:induction false} SplitExcludes(s: string, sep: char)
    ensures forall p :: p in Split(s, sep) ==> sep !in p
    decreases |s|
  {
    hide Split, IndexOf;
    SplitCons(s, sep);
    if IndexOf(s, sep).Some? {
      SplitExcludes(s[IndexOf(s, sep).value + 1..], sep);
    }
  }

  lemma {:induction false} Parted(s: string, k: nat)
    requires k < |s|
    ensures s == s[..k] + [s[k]] + s[k + 1..]
  {
  }

  // ---------- order ----------

  predicate Less(a: string, b: string) {
    if b == "" then false
    else if a == "" then true
    else a[0] < b[0] || (a[0] == b[0] && Less(a[1..], b[1..]))
  }

  /** The order is by first difference, a proper prefix coming first. */
  ghost predicate FirstDifference(a: string, b: string, k: nat) {
    k < |b| && k <= |a| && a[..k] == b[..k] && (k == |a| || a[k] < b[k])
  }

  lemma {:induction false} SharedStart(a: string, b: string, k: nat)
    requires FirstDifference(a, b, k)
    ensures k == 0 || (a != "" && a[0] == b[0])
  {
    if k > 0 {
      assert a[..k][0] == b[..k][0];
    }
  }

  lemma {:induction false} LessIff(a: string, b: string)
    ensures Less(a, b) <==> exists k: nat :: FirstDifference(a, b, k)
    decreases |a|
  {
    if a == "" || b == "" || a[0] != b[0] {
      if Less(a, b) {
        assert FirstDifference(a, b, 0);
      }
      if k: nat :| FirstDifference(a, b, k) {
        SharedStart(a, b, k);
      }
    } else {
      LessIff(a[1..], b[1..]);
      if k: nat :| FirstDifference(a[1..], b[1..], k) {
        assert a[..k + 1] == [a[0]] + a[1..][..k] && b[..k + 1] == [b[0]] + b[1..][..k];
        assert FirstDifference(a, b, k + 1);
      }
      if k: nat :| FirstDifference(a, b, k) {
        assert k > 0;
        assert a[1..][..k - 1] == a[..k][1..] && b[1..][..k - 1] == b[..k][1..];
        assert FirstDifference(a[1..], b[1..], k - 1);
      }
    }
  }

  lemma {:induction false} LessTransitive(a: string, b: string, c: string)
    requires Less(a, b) && Less(b, c)
    ensures Less(a, c)
    decreases |a|
  {
    if a != "" && a[0] == b[0] && b[0] == c[0] {
      LessTransitive(a[1..], b[1..], c[1..]);
    }
  }

  lemma {:induction false} LessTotal(a: string, b: string)
    ensures a == b || Less(a, b) || Less(b, a)
    decreases |a|
  {
    if a != "" && b != "" && a[0] == b[0] {
      LessTotal(a[1..], b[1..]);
      assert a == [a[0]] + a[1..] && b == [b[0]] + b[1..];
    }
  }

  lemma {:induction false} LessIrreflexive(a: string)
    ensures !Less(a, a)
    decreases |a|
  {
    if a != "" {
      LessIrreflexive(a[1..]);
    }
  }

  ghost predicate StrictlySorted(names: seq<string>) {
    forall i, j :: 0 <= i < j < |names| ==> Less(names[i], names[j])
  }

  function Insert(name: string, names: seq<string>): seq<string> {
    if names == [] || Less(name, names[0]) then [name] + names
    else [names[0]] + Insert(name, names[1..])
  }

  /** Stands for the library sort; see `SortSpec` for what it guarantees. */
  function Sort(names: seq<string>): seq<string> {
    if names == [] then [] else Insert(names[0], Sort(names[1..]))
  }

  function Elements<T>(xs: seq<T>): set<T> {
    set x | x in xs
  }

  ghost predicate Distinct<T>(xs: seq<T>) {
    forall i, j :: 0 <= i < j < |xs| ==> xs[i] != xs[j]
  }

  lemma {:induction false} InsertSorted(name: string, names: seq<string>)
    requires StrictlySorted(names) && name !in names
    ensures StrictlySorted(Insert(name, names))
    ensures Elements(Insert(name, names)) == Elements(names) + {name}
    decreases |names|
  {
    if names != [] {
      if Less(name, names[0]) {
        forall j | 0 < j < |names| ensures Less(name, names[j]) {
          LessTransitive(name, names[0], names[j]);
        }
      } else {
        LessTotal(name, names[0]);
        assert names == [names[0]] + names[1..];
        InsertSorted(name, names[1..]);
        var rest := Insert(name, names[1..]);
        forall j | 0 <= j < |rest| ensures Less(names[0], rest[j]) {
          assert rest[j] in Elements(rest);
        }
      }
    }
  }

  lemma {:induction false} SortSpec(names: seq<string>)
    requires Distinct(names)
    ensures StrictlySorted(Sort(names)) && Elements(Sort(names)) == Elements(names)
    decreases |names|
  {
    if names != [] {
      assert names == [names[0]] + names[1..];
      SortSpec(names[1..]);
      assert names[0] !in Elements(names[1..]);
      assert names[0] in Sort(names[1..]) <==> names[0] in Elements(Sort(names[1..]));
      InsertSorted(names[0], Sort(names[1..]));
    }
  }

  lemma {:induction false} StrictlySortedDistinct(names: seq<string>)
    requires StrictlySorted(names)
    ensures Distinct(names)
  {
    forall i, j | 0 <= i < j < |names| ensures names[i] != names[j] {
      LessIrreflexive(names[i]);
    }
  }
}
