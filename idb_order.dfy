/** How an IndexedDB object store lists its records (W3C Indexed Database
    API, section 2.6 "Index" and section 2.7 "Key"): by index key, records with
    equal index keys by primary key; numbers before strings, numbers by value,
    strings by character code. An object store without an index lists its
    records by primary key. The scans are functions of the store's contents. */
module IdbOrder {

  /** Strict lexicographic order of strings by character code. */
  predicate StrBelow(a: string, b: string)
    decreases |a|
  {
    |b| > 0 && (|a| == 0 || a[0] < b[0] || (a[0] == b[0] && StrBelow(a[1..], b[1..])))
  }

  lemma {:induction false} StrBelowIrreflexive(a: string)
    ensures !StrBelow(a, a)
  {
    if |a| > 0 {
      StrBelowIrreflexive(a[1..]);
    }
  }

  lemma {:induction false} StrBelowTransitive(a: string, b: string, c: string)
    requires StrBelow(a, b) && StrBelow(b, c)
    ensures StrBelow(a, c)
    decreases |a|
  {
    if |a| > 0 && a[0] == b[0] && b[0] == c[0] {
      StrBelowTransitive(a[1..], b[1..], c[1..]);
    }
  }

  lemma {:induction false} StrBelowTotal(a: string, b: string)
    ensures a == b || StrBelow(a, b) || StrBelow(b, a)
    decreases |a|
  {
    if |a| > 0 && |b| > 0 && a[0] == b[0] {
      StrBelowTotal(a[1..], b[1..]);
      if a[1..] == b[1..] {
        assert a == [a[0]] + a[1..] && b == [b[0]] + b[1..];
      }
    }
  }

  /** The keys this program stores or indexes: numbers (timestamps) and
      strings (ids). */
  datatype IdbKey = NumKey(n: int) | StrKey(s: string)

  /** Key comparison: every number sorts before every string. */
  predicate KeyBelow(a: IdbKey, b: IdbKey) {
    match a
    case NumKey(x) => b.StrKey? || x < b.n
    case StrKey(x) => b.StrKey? && StrBelow(x, b.s)
  }

  /** Order of index entries: by index key `k`, then by primary key `p`. */
  predicate EntryBelow(ka: IdbKey, pa: string, kb: IdbKey, pb: string) {
    KeyBelow(ka, kb) || (ka == kb && StrBelow(pa, pb))
  }

  lemma KeyBelowIrreflexive(a: IdbKey)
    ensures !KeyBelow(a, a)
  {
    if a.StrKey? { StrBelowIrreflexive(a.s); }
  }

  lemma KeyBelowTransitive(a: IdbKey, b: IdbKey, c: IdbKey)
    requires KeyBelow(a, b) && KeyBelow(b, c)
    ensures KeyBelow(a, c)
  {
    if a.StrKey? { StrBelowTransitive(a.s, b.s, c.s); }
  }

  lemma KeyBelowTotal(a: IdbKey, b: IdbKey)
    ensures a == b || KeyBelow(a, b) || KeyBelow(b, a)
  {
    if a.StrKey? && b.StrKey? { StrBelowTotal(a.s, b.s); }
  }

  /** Index entries form a strict total order. */
  lemma EntryOrder()
    ensures forall ka, pa :: !EntryBelow(ka, pa, ka, pa)
    ensures forall ka, pa, kb, pb, kc, pc ::
      EntryBelow(ka, pa, kb, pb) && EntryBelow(kb, pb, kc, pc) ==> EntryBelow(ka, pa, kc, pc)
    ensures forall ka, pa, kb, pb ::
      (ka == kb && pa == pb) || EntryBelow(ka, pa, kb, pb) || EntryBelow(kb, pb, ka, pa)
  {
    forall ka, pa ensures !EntryBelow(ka, pa, ka, pa) {
      StrBelowIrreflexive(pa);
      KeyBelowIrreflexive(ka);
    }
    forall ka, pa, kb, pb, kc, pc | EntryBelow(ka, pa, kb, pb) && EntryBelow(kb, pb, kc, pc)
      ensures EntryBelow(ka, pa, kc, pc)
    {
      KeyBelowIrreflexive(ka);
      KeyBelowIrreflexive(kb);
      if KeyBelow(ka, kb) && KeyBelow(kb, kc) {
        KeyBelowTransitive(ka, kb, kc);
      } else if ka == kb && kb == kc {
        StrBelowTransitive(pa, pb, pc);
      }
    }
    forall ka, pa, kb, pb ensures (ka == kb && pa == pb) || EntryBelow(ka, pa, kb, pb) || EntryBelow(kb, pb, ka, pa) {
      StrBelowTotal(pa, pb);
      KeyBelowTotal(ka, kb);
    }
  }

  /** `k` holds the first entry of `m` in the order of index `ik`. */
  predicate IsFirst<T>(m: map<string, T>, ik: T -> IdbKey, k: string)
    requires k in m
  {
    forall k' :: k' in m && k' != k ==> EntryBelow(ik(m[k]), k, ik(m[k']), k')
  }

  lemma {:induction false} FirstExists<T>(m: map<string, T>, ik: T -> IdbKey)
    requires |m| > 0
    ensures exists k :: k in m && IsFirst(m, ik, k)
    decreases |m|
  {
    EntryOrder();
    var x :| x in m;
    var rest := m - {x};
    assert rest.Keys == m.Keys - {x};
    if |rest| == 0 {
      assert forall k' :: k' in m ==> k' == x;
      assert IsFirst(m, ik, x);
    } else {
      FirstExists(rest, ik);
      var y :| y in rest && IsFirst(rest, ik, y);
      assert forall k' :: k' in rest ==> rest[k'] == m[k'];
      if EntryBelow(ik(m[x]), x, ik(m[y]), y) {
        forall k' | k' in m && k' != x ensures EntryBelow(ik(m[x]), x, ik(m[k']), k') {
          if k' != y {
            assert EntryBelow(ik(m[y]), y, ik(m[k']), k');
          }
        }
        assert IsFirst(m, ik, x);
      } else {
        assert EntryBelow(ik(m[y]), y, ik(m[x]), x);
        assert IsFirst(m, ik, y);
      }
    }
  }

  /** The primary key of the first entry of a non-empty store. */
  function FirstKey<T>(m: map<string, T>, ik: T -> IdbKey): (k: string)
    requires |m| > 0
    ensures k in m && IsFirst(m, ik, k)
  {
    FirstExists(m, ik);
    EntryOrder();
    var k :| k in m && IsFirst(m, ik, k); k
  }

  /** The primary keys of `m` in the order of index `ik`: every key once,
      each entry strictly below the next. */
  function ScanKeys<T>(m: map<string, T>, ik: T -> IdbKey): (ks: seq<string>)
    ensures |ks| == |m|
    ensures forall i :: 0 <= i < |ks| ==> ks[i] in m
    ensures forall k :: k in m ==> k in ks
    ensures forall i, j :: 0 <= i < j < |ks| ==> EntryBelow(ik(m[ks[i]]), ks[i], ik(m[ks[j]]), ks[j])
    decreases |m|
  {
    if |m| == 0 then []
    else
      var k := FirstKey(m, ik);
      var rest := m - {k};
      assert |rest| < |m| by { assert rest.Keys == m.Keys - {k}; }
      var tail := ScanKeys(rest, ik);
      ScanStep(m, ik, k, tail);
      [k] + tail
  }

  /** Putting the first key of `m` in front of a listing of the rest lists
      all of `m` in order. */
  lemma ScanStep<T>(m: map<string, T>, ik: T -> IdbKey, k: string, tail: seq<string>)
    requires k in m && IsFirst(m, ik, k)
    requires |tail| == |m - {k}|
    requires forall i :: 0 <= i < |tail| ==> tail[i] in m - {k}
    requires forall x :: x in m - {k} ==> x in tail
    requires forall i, j :: 0 <= i < j < |tail| ==>
      EntryBelow(ik((m - {k})[tail[i]]), tail[i], ik((m - {k})[tail[j]]), tail[j])
    ensures |[k] + tail| == |m|
    ensures forall i :: 0 <= i < |[k] + tail| ==> ([k] + tail)[i] in m
    ensures forall x :: x in m ==> x in [k] + tail
    ensures forall i, j :: 0 <= i < j < |[k] + tail| ==>
      EntryBelow(ik(m[([k] + tail)[i]]), ([k] + tail)[i], ik(m[([k] + tail)[j]]), ([k] + tail)[j])
  {
    assert (m - {k}).Keys == m.Keys - {k};
    ScanStepOrder(m, ik, k, tail);
  }

  /** The order half of `ScanStep`. */
  lemma ScanStepOrder<T>(m: map<string, T>, ik: T -> IdbKey, k: string, tail: seq<string>)
    requires k in m && IsFirst(m, ik, k)
    requires forall i :: 0 <= i < |tail| ==> tail[i] in m - {k}
    requires forall i, j :: 0 <= i < j < |tail| ==>
      EntryBelow(ik((m - {k})[tail[i]]), tail[i], ik((m - {k})[tail[j]]), tail[j])
    ensures forall i :: 0 <= i < |[k] + tail| ==> ([k] + tail)[i] in m
    ensures forall i, j :: 0 <= i < j < |[k] + tail| ==>
      EntryBelow(ik(m[([k] + tail)[i]]), ([k] + tail)[i], ik(m[([k] + tail)[j]]), ([k] + tail)[j])
  {
    var rest := m - {k};
    var ks := [k] + tail;
    forall i | 0 <= i < |ks| ensures ks[i] in m {
      if i > 0 {
        assert ks[i] == tail[i - 1];
      }
    }
    forall i, j | 0 <= i < j < |ks|
      ensures EntryBelow(ik(m[ks[i]]), ks[i], ik(m[ks[j]]), ks[j])
    {
      assert ks[j] == tail[j - 1] && ks[j] in rest && rest[ks[j]] == m[ks[j]];
      if i > 0 {
        assert ks[i] == tail[i - 1] && ks[i] in rest && rest[ks[i]] == m[ks[i]];
      }
    }
  }

  /** The records at keys `ks`, in that order. */
  function RecordsAt<T>(m: map<string, T>, ks: seq<string>): (r: seq<T>)
    requires forall i :: 0 <= i < |ks| ==> ks[i] in m
    ensures |r| == |ks|
    ensures forall i :: 0 <= i < |ks| ==> r[i] == m[ks[i]]
  {
    seq(|ks|, i requires 0 <= i < |ks| => m[ks[i]])
  }

  /** `getAllFromIndex` without a query: every record, in index order. */
  function Scan<T>(m: map<string, T>, ik: T -> IdbKey): seq<T>
  {
    RecordsAt(m, ScanKeys(m, ik))
  }

  /** Two records of a scan, the first before the second, are ordered by
      (index key, primary key). */
  lemma ScanPair<T>(m: map<string, T>, ik: T -> IdbKey, i: int, j: int)
    requires 0 <= i < j < |Scan(m, ik)|
    ensures var s, ks := Scan(m, ik), ScanKeys(m, ik);
      ks[i] in m && ks[j] in m && s[i] == m[ks[i]] && s[j] == m[ks[j]] &&
      EntryBelow(ik(s[i]), ks[i], ik(s[j]), ks[j])
  {
    var ks := ScanKeys(m, ik);
    assert EntryBelow(ik(m[ks[i]]), ks[i], ik(m[ks[j]]), ks[j]);
  }

  /** Between numeric index keys, entry order is (number, primary key). */
  lemma NumEntryBelow(x: int, p: string, y: int, q: string)
    requires EntryBelow(NumKey(x), p, NumKey(y), q)
    ensures x < y || (x == y && StrBelow(p, q))
  {
  }

  /** The records whose index key equals `q`. */
  function Only<T>(m: map<string, T>, ik: T -> IdbKey, q: IdbKey): (r: map<string, T>)
    ensures forall k :: k in r <==> k in m && ik(m[k]) == q
    ensures forall k :: k in r ==> r[k] == m[k]
  {
    map k | k in m && ik(m[k]) == q :: m[k]
  }

  /** The index key of an object store's own listing: every record sorts by
      primary key alone. */
  function NoIndex<T>(x: T): IdbKey {
    NumKey(0)
  }

  /** `s` in reverse order, as `Array.prototype.reverse` leaves it. */
  function Reverse<T>(s: seq<T>): (r: seq<T>)
    ensures |r| == |s|
    ensures forall i :: 0 <= i < |s| ==> r[i] == s[|s| - 1 - i]
  {
    seq(|s|, i requires 0 <= i < |s| => s[|s| - 1 - i])
  }
}
