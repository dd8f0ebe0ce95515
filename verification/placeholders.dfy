/** Recognising the photo placeholders of a template and ordering them.

    A shape is a placeholder when its name matches `^foto_(\d+)$` with
    `re.IGNORECASE` and `re.match`; the digits give its index. All shapes of
    all slides are scanned (groups recursively), and the matches are stably
    sorted by index. */
module Placeholders {
  import opened Wrappers
  import opened Text
  import opened Slides

  // ---------------------------------------------------------------------
  // Names
  // ---------------------------------------------------------------------

  /** Five characters spelling `foto_` in any letter case. */
  predicate IsFotoPrefix(p: string) {
    Lower(p) == "foto_"
  }

  /** The index a shape name carries, or `None` when it does not match
      `^foto_(\d+)$`. As in Python's `re`, `$` also matches just before one
      final line break, so `"foto_3\n"` carries index 3. */
  function PlaceholderIndex(name: string): (r: Option<nat>)
    ensures r.Some? ==> |name| >= 6 && IsFotoPrefix(name[..5])
  {
    if |name| < 6 || !IsFotoPrefix(name[..5]) then None
    else
      var digits := if name[|name| - 1] == '\n' then name[5..|name| - 1] else name[5..];
      if |digits| >= 1 && AllDigits(digits) then Some(DigitsValue(digits)) else None
  }

  /** The pattern, stated declaratively: the prefix, a non-empty run of
      digits, and at most one final line break. */
  ghost predicate MatchesWith(name: string, digits: string) {
    && |digits| >= 1 && AllDigits(digits)
    && |name| >= 5 && IsFotoPrefix(name[..5])
    && (name[5..] == digits || name[5..] == digits + "\n")
  }

  /** `PlaceholderIndex` accepts exactly the names of the pattern and reads
      the index from their digits. */
  lemma PlaceholderIndexMeaning(name: string)
    ensures PlaceholderIndex(name).Some? <==> exists d :: MatchesWith(name, d)
    ensures forall d :: MatchesWith(name, d) ==> PlaceholderIndex(name) == Some(DigitsValue(d))
  {
    forall d | MatchesWith(name, d)
      ensures PlaceholderIndex(name) == Some(DigitsValue(d))
    {
      if name[5..] == d + "\n" {
        assert name[|name| - 1] == '\n';
        assert name[5..|name| - 1] == d;
      } else {
        assert name[5..] == d;
        assert name[|name| - 1] == d[|d| - 1];
        assert name[|name| - 1] != '\n';
      }
    }
    if PlaceholderIndex(name).Some? {
      var d := if name[|name| - 1] == '\n' then name[5..|name| - 1] else name[5..];
      if name[|name| - 1] == '\n' {
        assert name[5..] == d + "\n";
      }
      assert MatchesWith(name, d);
    }
  }

  lemma PrefixedDigits(prefix: string, d: string)
    requires |prefix| == 5 && IsFotoPrefix(prefix)
    requires |d| >= 1 && AllDigits(d)
    ensures PlaceholderIndex(prefix + d) == Some(DigitsValue(d))
    ensures PlaceholderIndex(prefix + d + "\n") == Some(DigitsValue(d))
  {
    var name := prefix + d;
    assert name[..5] == prefix;
    assert name[5..] == d;
    assert MatchesWith(name, d);
    PlaceholderIndexMeaning(name);
    var name' := prefix + d + "\n";
    assert name'[..5] == prefix;
    assert name'[5..] == d + "\n";
    assert MatchesWith(name', d);
    PlaceholderIndexMeaning(name');
  }

  /** The placeholder name for index `n`, with any spelling of the prefix
      and any number of leading zeros, carries index `n`; so does the same
      name followed by one line break. */
  lemma PlaceholderNameRoundTrip(prefix: string, zeros: nat, n: nat)
    requires |prefix| == 5 && IsFotoPrefix(prefix)
    ensures PlaceholderIndex(prefix + Zeros(zeros) + NatToString(n)) == Some(n)
    ensures PlaceholderIndex(prefix + Zeros(zeros) + NatToString(n) + "\n") == Some(n)
  {
    var d := Zeros(zeros) + NatToString(n);
    LeadingZeros(zeros, NatToString(n));
    NatToStringRoundTrip(n);
    PrefixedDigits(prefix, d);
    assert prefix + Zeros(zeros) + NatToString(n) == prefix + d;
  }

  /** The index of a shape; shapes without a name or with an empty name
      are skipped. */
  function ShapeIndex(sh: Shape): Option<nat> {
    match sh.name
    case None => None
    case Some(nm) => if |nm| == 0 then None else PlaceholderIndex(nm)
  }

  // ---------------------------------------------------------------------
  // Scanning and stable ordering
  // ---------------------------------------------------------------------

  /** A recognised placeholder: its index and the shape. */
  datatype Match = Match(index: nat, shape: Shape)

  /** The matches among `shapes`, in the order of `shapes`. */
  function Scan(shapes: seq<Shape>): (r: seq<Match>)
    ensures forall m :: m in r ==> m.shape in shapes && ShapeIndex(m.shape) == Some(m.index)
    ensures forall sh :: sh in shapes && ShapeIndex(sh).Some? ==> Match(ShapeIndex(sh).value, sh) in r
    decreases |shapes|
  {
    if |shapes| == 0 then []
    else
      var last := shapes[|shapes| - 1];
      var prefix := shapes[..|shapes| - 1];
      assert shapes == prefix + [last];
      Scan(prefix) + (if ShapeIndex(last).Some? then [Match(ShapeIndex(last).value, last)] else [])
  }

  predicate SortedByIndex(ms: seq<Match>) {
    forall i, j :: 0 <= i < j < |ms| ==> ms[i].index <= ms[j].index
  }

  /** The matches with index `k`, in their order in `ms`. */
  function WithIndex(ms: seq<Match>, k: nat): (r: seq<Match>)
    ensures |r| <= |ms|
  {
    if |ms| == 0 then []
    else (if ms[0].index == k then [ms[0]] else []) + WithIndex(ms[1..], k)
  }

  lemma {:induction false} WithIndexConcat(a: seq<Match>, b: seq<Match>, k: nat)
    ensures WithIndex(a + b, k) == WithIndex(a, k) + WithIndex(b, k)
    decreases |a|
  {
    if |a| == 0 {
      assert a + b == b;
    } else {
      var head: seq<Match> := if a[0].index == k then [a[0]] else [];
      assert (a + b)[0] == a[0];
      assert (a + b)[1..] == a[1..] + b;
      assert WithIndex(a + b, k) == head + WithIndex(a[1..] + b, k);
      assert WithIndex(a, k) == head + WithIndex(a[1..], k);
      WithIndexConcat(a[1..], b, k);
      SeqAssoc(head, WithIndex(a[1..], k), WithIndex(b, k));
    }
  }

  lemma {:induction false} WithIndexAbsent(ms: seq<Match>, k: nat)
    requires forall i :: 0 <= i < |ms| ==> ms[i].index != k
    ensures WithIndex(ms, k) == []
    decreases |ms|
  {
    if |ms| > 0 {
      WithIndexAbsent(ms[1..], k);
    }
  }

  lemma {:induction false} WithIndexMember(ms: seq<Match>, i: nat)
    requires i < |ms|
    ensures ms[i] in WithIndex(ms, ms[i].index)
    decreases i
  {
    if i > 0 {
      WithIndexMember(ms[1..], i - 1);
    }
  }

  lemma {:induction false} WithIndexElements(ms: seq<Match>, k: nat)
    ensures forall m :: m in WithIndex(ms, k) ==> m in ms && m.index == k
    decreases |ms|
  {
    if |ms| > 0 {
      WithIndexElements(ms[1..], k);
    }
  }

  lemma SortedCons(h: Match, ms: seq<Match>)
    requires SortedByIndex(ms)
    requires forall x :: x in ms ==> h.index <= x.index
    ensures SortedByIndex([h] + ms)
  {
    var r := [h] + ms;
    forall i, j | 0 <= i < j < |r| ensures r[i].index <= r[j].index {
      assert r[j] == ms[j - 1];
      if i > 0 {
        assert r[i] == ms[i - 1];
      }
    }
  }

  /** Inserts `m` after every match whose index is at most `m.index`. */
  function Insert(m: Match, ms: seq<Match>): (r: seq<Match>)
    requires SortedByIndex(ms)
    ensures SortedByIndex(r)
    ensures multiset(r) == multiset(ms) + multiset{m}
    decreases |ms|
  {
    if |ms| == 0 then [m]
    else if m.index < ms[0].index then
      SortedCons(m, ms);
      [m] + ms
    else
      var tail := ms[1..];
      assert ms == [ms[0]] + tail;
      var rest := Insert(m, tail);
      SortedHeadBound(ms);
      MultisetLowerBound(rest, tail, m, ms[0].index);
      SortedCons(ms[0], rest);
      [ms[0]] + rest
  }

  /** The head of a sorted sequence bounds the indexes of its tail. */
  lemma SortedHeadBound(ms: seq<Match>)
    requires SortedByIndex(ms) && |ms| > 0
    ensures forall x :: x in ms[1..] ==> ms[0].index <= x.index
  {
    forall x | x in ms[1..] ensures ms[0].index <= x.index {
      var j :| 0 <= j < |ms[1..]| && ms[1..][j] == x;
      assert ms[j + 1] == x;
    }
  }

  /** A lower bound on the indexes carries over to a permutation that
      adds one more match above the bound. */
  lemma MultisetLowerBound(r: seq<Match>, ms: seq<Match>, m: Match, lo: nat)
    requires multiset(r) == multiset(ms) + multiset{m}
    requires forall x :: x in ms ==> lo <= x.index
    requires lo <= m.index
    ensures forall x :: x in r ==> lo <= x.index
  {
    forall x | x in r ensures lo <= x.index {
      assert x in multiset(r);
      if x != m {
        assert x in multiset(ms);
      }
    }
  }

  lemma {:induction false} InsertWithIndex(m: Match, ms: seq<Match>, k: nat)
    requires SortedByIndex(ms)
    ensures WithIndex(Insert(m, ms), k) == WithIndex(ms, k) + (if m.index == k then [m] else [])
    decreases |ms|
  {
    if |ms| == 0 {
      WithIndexCons(m, [], k);
    } else if m.index < ms[0].index {
      WithIndexCons(m, ms, k);
      if m.index == k {
        WithIndexAbsent(ms, k);
      }
    } else {
      var tail := ms[1..];
      var rest := Insert(m, tail);
      assert Insert(m, ms) == [ms[0]] + rest;
      WithIndexCons(ms[0], rest, k);
      InsertWithIndex(m, tail, k);
      assert ms == [ms[0]] + tail;
      WithIndexCons(ms[0], tail, k);
      SeqAssoc(if ms[0].index == k then [ms[0]] else [], WithIndex(tail, k), if m.index == k then [m] else []);
    }
  }

  lemma WithIndexCons(h: Match, t: seq<Match>, k: nat)
    ensures WithIndex([h] + t, k) == (if h.index == k then [h] else []) + WithIndex(t, k)
  {
    assert ([h] + t)[1..] == t;
  }

  /** Python's stable `list.sort(key=index)`, as an insertion sort that
      takes the matches in order. */
  function SortByIndex(ms: seq<Match>): (r: seq<Match>)
    ensures SortedByIndex(r)
    ensures multiset(r) == multiset(ms)
    ensures forall k :: WithIndex(r, k) == WithIndex(ms, k)
    decreases |ms|
  {
    if |ms| == 0 then []
    else
      var prefix, last := ms[..|ms| - 1], ms[|ms| - 1];
      var sorted := SortByIndex(prefix);
      assert ms == prefix + [last];
      assert forall k :: WithIndex(Insert(last, sorted), k) == WithIndex(ms, k) by {
        forall k ensures WithIndex(Insert(last, sorted), k) == WithIndex(ms, k) {
          InsertWithIndex(last, sorted, k);
          WithIndexConcat(prefix, [last], k);
        }
      }
      Insert(last, sorted)
  }

  /** Sortedness and equal per-index subsequences determine a sequence:
      any stable sort by index yields exactly `SortByIndex`. */
  lemma {:induction false} StableSortUnique(a: seq<Match>, b: seq<Match>)
    requires SortedByIndex(a) && SortedByIndex(b)
    requires forall k :: WithIndex(a, k) == WithIndex(b, k)
    ensures a == b
    decreases |a|
  {
    if |a| == 0 {
      if |b| > 0 {
        WithIndexMember(b, 0);
        assert false;
      }
    } else if |b| == 0 {
      WithIndexMember(a, 0);
      assert false;
    } else {
      WithIndexMember(a, 0);
      WithIndexMember(b, 0);
      WithIndexElements(a, b[0].index);
      WithIndexElements(b, a[0].index);
      assert a[0].index == b[0].index;
      var k0 := a[0].index;
      assert WithIndex(a, k0) == [a[0]] + WithIndex(a[1..], k0);
      assert WithIndex(b, k0) == [b[0]] + WithIndex(b[1..], k0);
      assert a[0] == WithIndex(a, k0)[0] == WithIndex(b, k0)[0] == b[0];
      forall k ensures WithIndex(a[1..], k) == WithIndex(b[1..], k) {
        var head: seq<Match> := if a[0].index == k then [a[0]] else [];
        assert WithIndex(a, k) == head + WithIndex(a[1..], k);
        assert WithIndex(b, k) == head + WithIndex(b[1..], k);
        assert WithIndex(a[1..], k) == WithIndex(a, k)[|head|..];
        assert WithIndex(b[1..], k) == WithIndex(b, k)[|head|..];
      }
      StableSortUnique(a[1..], b[1..]);
      assert a == [a[0]] + a[1..];
      assert b == [b[0]] + b[1..];
    }
  }

  /** `_collect_named_placeholders`: the placeholders of all slides, sorted
      by index; those with equal index stay in scan order (slides in order,
      a group before its children). */
  function CollectPlaceholders(slides: seq<Slide>): (r: seq<Match>)
    ensures SortedByIndex(r)
    ensures forall k :: WithIndex(r, k) == WithIndex(Scan(AllShapes(slides)), k)
    ensures forall m :: m in r <==> m in Scan(AllShapes(slides))
    ensures forall m :: m in r ==> m.shape in AllShapes(slides) && ShapeIndex(m.shape) == Some(m.index)
  {
    var scanned := Scan(AllShapes(slides));
    var r := SortByIndex(scanned);
    assert forall m :: m in r <==> m in multiset(scanned);
    r
  }
}
