/**
 * The sort stage: a copy of the filtered roster is sorted in place with the
 * table's comparator, which answers 1 or -1 and never 0.
 */
module RosterSort {
  import opened Types
  import Strings

  /** The client fields a column can sort by. */
  datatype SortField = Id | Name | Clinician | AssignedDate | UnitsUsed | Status | LastUpdated | UnitsMode

  datatype Direction = Asc | Desc

  /** The value a field holds: text for string fields, a number for unitsUsed. */
  datatype SortKey = Text(text: string) | Number(amount: real)

  /** `client[f]`; a status and a units mode are the strings that stand for them. */
  function Key(c: Client, f: SortField): (k: SortKey)
    ensures k.Number? <==> f == UnitsUsed
  {
    match f
    case Id => Text(c.id)
    case Name => Text(c.name)
    case Clinician => Text(c.clinician)
    case AssignedDate => Text(c.assignedDate)
    case UnitsUsed => Number(c.unitsUsed)
    case Status => Text(Label(c.status))
    case LastUpdated => Text(c.lastUpdated)
    case UnitsMode => Text(ModeLabel(c.unitsMode))
  }

  /** JavaScript's `x < y` on two values of one field. */
  predicate KeyLess(x: SortKey, y: SortKey) {
    match (x, y)
    case (Text(s), Text(t)) => Strings.Less(s, t)
    case (Number(u), Number(v)) => u < v
    case _ => false
  }

  lemma KeyLessAsymmetric(x: SortKey, y: SortKey)
    ensures KeyLess(x, y) ==> !KeyLess(y, x)
  {
    if x.Text? && y.Text? {
      Strings.LessAsymmetric(x.text, y.text);
    }
  }

  lemma KeyLessTransitive(x: SortKey, y: SortKey, z: SortKey)
    requires KeyLess(x, y) && KeyLess(y, z)
    ensures KeyLess(x, z)
  {
    if x.Text? {
      Strings.LessTransitive(x.text, y.text, z.text);
    }
  }

  /** Two values of one field are equal or ordered one way or the other. */
  lemma KeyLessTotal(x: SortKey, y: SortKey)
    requires x.Text? == y.Text?
    ensures x == y || KeyLess(x, y) || KeyLess(y, x)
  {
    if x.Text? {
      Strings.LessTotal(x.text, y.text);
    }
  }

  /** The table's comparator: in ascending order 1 when `a[f] > b[f]`, in descending
      order 1 when `a[f] < b[f]`, and -1 in every other case. */
  function Compare(a: Client, b: Client, f: SortField, d: Direction): (r: int)
    ensures r == 1 || r == -1
    ensures d == Asc ==> (r == 1 <==> KeyLess(Key(b, f), Key(a, f)))
    ensures d == Desc ==> (r == 1 <==> KeyLess(Key(a, f), Key(b, f)))
  {
    if d == Asc then (if KeyLess(Key(b, f), Key(a, f)) then 1 else -1)
    else (if KeyLess(Key(a, f), Key(b, f)) then 1 else -1)
  }

  /** The two directions are mirror images: descending compares the pair the other way round. */
  lemma CompareMirrored(a: Client, b: Client, f: SortField)
    ensures Compare(a, b, f, Desc) == Compare(b, a, f, Asc)
  {
  }

  /** The comparator never returns 0: on equal keys both orders of the pair answer -1. */
  lemma CompareTies(a: Client, b: Client, f: SortField, d: Direction)
    requires Key(a, f) == Key(b, f)
    ensures Compare(a, b, f, d) == -1 && Compare(b, a, f, d) == -1
  {
    if Key(a, f).Text? {
      Strings.LessIrreflexive(Key(a, f).text);
    }
  }

  /** The comparator lets `a` stay before `b`. */
  predicate InOrder(a: Client, b: Client, f: SortField, d: Direction) {
    Compare(a, b, f, d) == -1
  }

  /** When the comparator puts `a` after `b`, it lets `b` stay before `a`. */
  lemma InOrderFlip(a: Client, b: Client, f: SortField, d: Direction)
    requires Compare(a, b, f, d) == 1
    ensures InOrder(b, a, f, d)
  {
    KeyLessAsymmetric(Key(a, f), Key(b, f));
  }

  lemma InOrderTransitive(a: Client, b: Client, c: Client, f: SortField, d: Direction)
    requires InOrder(a, b, f, d) && InOrder(b, c, f, d)
    ensures InOrder(a, c, f, d)
  {
    var x, y, z := Key(a, f), Key(b, f), Key(c, f);
    KeyLessTotal(x, y);
    KeyLessTotal(y, z);
    KeyLessAsymmetric(x, z);
    if KeyLess(x, y) && KeyLess(y, z) {
      KeyLessTransitive(x, y, z);
    }
    if KeyLess(z, y) && KeyLess(y, x) {
      KeyLessTransitive(z, y, x);
    }
  }

  /** No pair of the sequence is one the comparator would swap. */
  predicate Sorted(s: seq<Client>, f: SortField, d: Direction) {
    forall i, j :: 0 <= i < j < |s| ==> InOrder(s[i], s[j], f, d)
  }

  /** No two clients of the sequence have the same value of the field. */
  predicate DistinctKeys(s: seq<Client>, f: SortField) {
    forall i, j :: 0 <= i < j < |s| ==> Key(s[i], f) != Key(s[j], f)
  }

  /** With distinct keys, a sorted sequence is strictly increasing by the field in
      ascending order and strictly decreasing in descending order. */
  lemma SortedDistinctIsStrict(s: seq<Client>, f: SortField, d: Direction, i: int, j: int)
    requires Sorted(s, f, d) && DistinctKeys(s, f)
    requires 0 <= i < j < |s|
    ensures d == Asc ==> KeyLess(Key(s[i], f), Key(s[j], f))
    ensures d == Desc ==> KeyLess(Key(s[j], f), Key(s[i], f))
  {
    KeyLessTotal(Key(s[i], f), Key(s[j], f));
  }

  /** The pairs of `s[lo..hi]` are all in order. */
  predicate Ordered(s: seq<Client>, lo: int, hi: int, f: SortField, d: Direction)
    requires 0 <= lo <= hi <= |s|
  {
    forall k, m :: lo <= k < m < hi ==> InOrder(s[k], s[m], f, d)
  }

  /** Every client of `s[..j]` is in order with every client of `s[j + 1..hi]`. */
  predicate Separated(s: seq<Client>, j: int, hi: int, f: SortField, d: Direction)
    requires 0 <= j < hi <= |s|
  {
    forall k, m :: 0 <= k < j < m < hi ==> InOrder(s[k], s[m], f, d)
  }

  /** One step of insertion: swapping `s[j - 1]` and `s[j]`, which the comparator
      puts the wrong way round, moves the hole of the insertion one place left. */
  lemma SwapStep(s: seq<Client>, j: int, i: int, f: SortField, d: Direction)
    requires 0 < j <= i < |s|
    requires Ordered(s, 0, j, f, d) && Ordered(s, j, i + 1, f, d) && Separated(s, j, i + 1, f, d)
    requires Compare(s[j - 1], s[j], f, d) == 1
    ensures var t := s[j - 1 := s[j]][j := s[j - 1]];
      Ordered(t, 0, j - 1, f, d) && Ordered(t, j - 1, i + 1, f, d) && Separated(t, j - 1, i + 1, f, d)
  {
    var t := s[j - 1 := s[j]][j := s[j - 1]];
    InOrderFlip(s[j - 1], s[j], f, d);
    forall k, m | j - 1 <= k < m < i + 1 ensures InOrder(t[k], t[m], f, d) {
      if k == j - 1 && m > j {
        assert t[k] == s[j] && t[m] == s[m];
      } else if k == j {
        assert t[k] == s[j - 1] && t[m] == s[m];
      }
    }
  }

  /** Insertion ends when the hole reaches the front or meets a client in order with it. */
  lemma InsertDone(s: seq<Client>, j: int, i: int, f: SortField, d: Direction)
    requires 0 <= j <= i < |s|
    requires Ordered(s, 0, j, f, d) && Ordered(s, j, i + 1, f, d) && Separated(s, j, i + 1, f, d)
    requires j > 0 ==> InOrder(s[j - 1], s[j], f, d)
    ensures Ordered(s, 0, i + 1, f, d)
  {
    forall k, m | 0 <= k < m < i + 1 ensures InOrder(s[k], s[m], f, d) {
      if k < j && m == j && k < j - 1 {
        InOrderTransitive(s[k], s[j - 1], s[j], f, d);
      }
    }
  }

  /** Moves `a[i]` left past every client the comparator puts after it, so that
      the sorted prefix `a[..i]` grows to `a[..i + 1]`. */
  method InsertLast(a: array<Client>, i: nat, f: SortField, d: Direction)
    requires i < a.Length
    requires Ordered(a[..], 0, i, f, d)
    modifies a
    ensures Ordered(a[..], 0, i + 1, f, d)
    ensures multiset(a[..]) == old(multiset(a[..]))
    ensures a[i + 1..] == old(a[i + 1..])
  {
    var j := i;
    while j > 0 && Compare(a[j - 1], a[j], f, d) == 1
      invariant 0 <= j <= i
      invariant Ordered(a[..], 0, j, f, d) && Ordered(a[..], j, i + 1, f, d)
      invariant Separated(a[..], j, i + 1, f, d)
      invariant multiset(a[..]) == old(multiset(a[..]))
      invariant a[i + 1..] == old(a[i + 1..])
    {
      SwapStep(a[..], j, i, f, d);
      a[j - 1], a[j] := a[j], a[j - 1];
      j := j - 1;
    }
    InsertDone(a[..], j, i, f, d);
  }

  /** `[...filtered].sort(compare)`: a fresh copy, sorted in place; the input is left as it was. */
  method SortedClients(filtered: seq<Client>, f: SortField, d: Direction) returns (sorted: seq<Client>)
    ensures multiset(sorted) == multiset(filtered)
    ensures Sorted(sorted, f, d)
  {
    var a := new Client[|filtered|](k requires 0 <= k < |filtered| => filtered[k]);
    assert a[..] == filtered;
    var i := 0;
    while i < a.Length
      invariant 0 <= i <= a.Length
      invariant multiset(a[..]) == multiset(filtered)
      invariant Ordered(a[..], 0, i, f, d)
    {
      InsertLast(a, i, f, d);
      i := i + 1;
    }
    sorted := a[..];
  }

  /** The clients of `s`, last first. */
  function Reverse(s: seq<Client>): (r: seq<Client>)
    ensures |r| == |s|
    ensures forall i :: 0 <= i < |s| ==> r[i] == s[|s| - 1 - i]
  {
    seq(|s|, i requires 0 <= i < |s| => s[|s| - 1 - i])
  }

  lemma {:induction false} ReversePermutes(s: seq<Client>)
    ensures multiset(Reverse(s)) == multiset(s)
    decreases |s|
  {
    if s != [] {
      var n := |s|;
      ReversePermutes(s[..n - 1]);
      assert Reverse(s) == [s[n - 1]] + Reverse(s[..n - 1]);
      assert s == s[..n - 1] + [s[n - 1]];
    }
  }

  /** Read backwards, an ascending result is a descending one, and the other way round. */
  lemma SortedReverse(s: seq<Client>, f: SortField)
    ensures Sorted(s, f, Asc) <==> Sorted(Reverse(s), f, Desc)
  {
    var r, n := Reverse(s), |s|;
    if Sorted(s, f, Asc) {
      forall i, j | 0 <= i < j < n ensures InOrder(r[i], r[j], f, Desc) {
        CompareMirrored(r[i], r[j], f);
      }
    }
    if Sorted(r, f, Desc) {
      forall i, j | 0 <= i < j < n ensures InOrder(s[i], s[j], f, Asc) {
        assert s[i] == r[n - 1 - i] && s[j] == r[n - 1 - j];
        CompareMirrored(s[j], s[i], f);
      }
    }
  }

  /** Two sorted permutations of the same clients, no two sharing a key, start alike. */
  lemma SortedHeadsAgree(s: seq<Client>, t: seq<Client>, f: SortField, d: Direction)
    requires s != [] && multiset(s) == multiset(t)
    requires Sorted(s, f, d) && Sorted(t, f, d) && DistinctKeys(s, f)
    ensures t != [] && s[0] == t[0]
  {
    assert s[0] in multiset(t);
    assert t[0] in multiset(s);
    var i :| 0 <= i < |s| && s[i] == t[0];
    var j :| 0 <= j < |t| && t[j] == s[0];
    if i != 0 {
      SortedDistinctIsStrict(s, f, d, 0, i);
      assert false;
    }
  }

  /** When no two clients share a key, only one order is sorted: two sorted
      permutations of the same clients are equal. */
  lemma {:induction false} SortedUnique(s: seq<Client>, t: seq<Client>, f: SortField, d: Direction)
    requires multiset(s) == multiset(t)
    requires Sorted(s, f, d) && Sorted(t, f, d) && DistinctKeys(s, f)
    ensures s == t
    decreases |s|
  {
    if s == [] {
      assert |t| == |multiset(t)| == 0;
    } else {
      SortedHeadsAgree(s, t, f, d);
      assert s == [s[0]] + s[1..];
      assert t == [t[0]] + t[1..];
      calc {
        multiset(s[1..]);
        multiset(s) - multiset{s[0]};
        multiset(t) - multiset{t[0]};
        multiset(t[1..]);
      }
      SortedUnique(s[1..], t[1..], f, d);
    }
  }

  lemma {:induction false} ReverseDistinctKeys(s: seq<Client>, f: SortField)
    requires DistinctKeys(s, f)
    ensures DistinctKeys(Reverse(s), f)
  {
    var r, n := Reverse(s), |s|;
    forall i, j | 0 <= i < j < n ensures Key(r[i], f) != Key(r[j], f) {
      assert r[i] == s[n - 1 - i] && r[j] == s[n - 1 - j];
    }
  }

  /** When no two clients share a key, the descending result is the ascending result reversed. */
  lemma DescendingIsReversedAscending(asc: seq<Client>, desc: seq<Client>, f: SortField)
    requires multiset(asc) == multiset(desc) && DistinctKeys(asc, f)
    requires Sorted(asc, f, Asc) && Sorted(desc, f, Desc)
    ensures desc == Reverse(asc)
  {
    SortedReverse(asc, f);
    ReversePermutes(asc);
    ReverseDistinctKeys(asc, f);
    SortedUnique(Reverse(asc), desc, f, Desc);
  }
}
