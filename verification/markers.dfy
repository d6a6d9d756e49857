/** `generate_Markers` and the two `Markers.sort` calls: marker records and
    Python's stable sort on their message-span start. */
module Markers {
  import opened Base
  import opened Report

  /** A pair read from the report; `last` is inclusive. */
  datatype Span = Span(first: int, last: int)

  /** The `[MarkerId, msg, col, row]` list built for each marker. */
  datatype Marker = Marker(id: nat, msg: Span, cols: Span, rows: Span)

  /** A marker whose pairs can all be read: `msg[0..1]`, `pos[0].cols[0..1]`, `pos[0].rows[0..1]`. */
  predicate WellFormed(raw: RawMarker)
  {
    |raw.msg| >= 2 && |raw.pos| >= 1 && |raw.pos[0].cols| >= 2 && |raw.pos[0].rows| >= 2
  }

  function MarkerOf(id: nat, raw: RawMarker): Marker
    requires WellFormed(raw)
  {
    Marker(id, Span(raw.msg[0], raw.msg[1]),
           Span(raw.pos[0].cols[0], raw.pos[0].cols[1]),
           Span(raw.pos[0].rows[0], raw.pos[0].rows[1]))
  }

  function MarkersOf(raws: seq<RawMarker>): seq<Marker>
    requires forall k :: 0 <= k < |raws| ==> WellFormed(raws[k])
  {
    seq(|raws|, k requires 0 <= k < |raws| => MarkerOf(k, raws[k]))
  }

  /** `generate_Markers`: one record per marker, in order, numbered from 0.
      A marker with a missing pair raises an IndexError, here an error result. */
  method ExtractMarkers(raws: seq<RawMarker>) returns (r: Result<seq<Marker>>)
    ensures r.Failure? ==> r.error == MalformedMarker
    ensures r.Success? <==> forall k :: 0 <= k < |raws| ==> WellFormed(raws[k])
    ensures r.Success? ==> |r.value| == |raws|
    ensures r.Success? ==> forall k :: 0 <= k < |raws| ==> r.value[k] == MarkerOf(k, raws[k])
  {
    var markers: seq<Marker> := [];
    var markerId := 0;
    while markerId < |raws|
      invariant 0 <= markerId <= |raws| && |markers| == markerId
      invariant forall k :: 0 <= k < markerId ==> WellFormed(raws[k]) && markers[k] == MarkerOf(k, raws[k])
    {
      var raw := raws[markerId];
      if !WellFormed(raw) {
        return Failure(MalformedMarker);
      }
      markers := markers + [MarkerOf(markerId, raw)];
      markerId := markerId + 1;
    }
    return Success(markers);
  }

  // ---------------------------------------------------------------------
  // Sorting by `tup[1][0]`, the start of the message span

  datatype Order = Ascending | Descending

  function Key(m: Marker): int { m.msg.first }

  /** a goes strictly before b in the order; markers with equal keys keep
      their relative order, as Python's sort does (also with `reverse=True`). */
  predicate Precedes(a: Marker, b: Marker, order: Order)
  {
    if order == Ascending then Key(a) < Key(b) else Key(a) > Key(b)
  }

  function Insert(x: Marker, sorted: seq<Marker>, order: Order): seq<Marker>
  {
    if sorted == [] || !Precedes(sorted[0], x, order) then [x] + sorted
    else [sorted[0]] + Insert(x, sorted[1..], order)
  }

  /** `Markers.sort(key=lambda tup: tup[1][0], reverse=order == Descending)`. */
  function Sort(ms: seq<Marker>, order: Order): (r: seq<Marker>)
    ensures Ordered(r, order)
    ensures multiset(r) == multiset(ms)
    decreases |ms|
  {
    if ms == [] then []
    else
      var rest := Sort(ms[1..], order);
      InsertOrdered(ms[0], rest, order);
      InsertMembers(ms[0], rest, order);
      assert ms == [ms[0]] + ms[1..];
      Insert(ms[0], rest, order)
  }

  predicate Ordered(ms: seq<Marker>, order: Order)
  {
    forall i, j :: 0 <= i < j < |ms| ==> !Precedes(ms[j], ms[i], order)
  }

  /** The markers of ms whose key is `key`, in the order of ms. */
  function WithKey(ms: seq<Marker>, key: int): seq<Marker>
  {
    if ms == [] then [] else (if Key(ms[0]) == key then [ms[0]] else []) + WithKey(ms[1..], key)
  }

  lemma {:induction false} InsertMembers(x: Marker, s: seq<Marker>, order: Order)
    ensures multiset(Insert(x, s, order)) == multiset(s) + multiset{x}
    ensures forall y :: y in Insert(x, s, order) <==> y == x || y in s
    decreases |s|
  {
    if s != [] && Precedes(s[0], x, order) {
      InsertMembers(x, s[1..], order);
      assert s == [s[0]] + s[1..];
    }
  }

  lemma {:induction false} InsertOrdered(x: Marker, s: seq<Marker>, order: Order)
    requires Ordered(s, order)
    ensures Ordered(Insert(x, s, order), order)
    decreases |s|
  {
    var r := Insert(x, s, order);
    if s == [] || !Precedes(s[0], x, order) {
      assert r == [x] + s;
      forall i, j | 0 <= i < j < |r| ensures !Precedes(r[j], r[i], order) {
        if i == 0 {
          assert r[j] == s[j - 1];
          assert j - 1 > 0 ==> !Precedes(s[j - 1], s[0], order);
        } else {
          assert r[i] == s[i - 1] && r[j] == s[j - 1];
        }
      }
    } else {
      var t := s[1..];
      assert Ordered(t, order) by {
        forall i, j | 0 <= i < j < |t| ensures !Precedes(t[j], t[i], order) {
          assert t[i] == s[i + 1] && t[j] == s[j + 1];
        }
      }
      InsertOrdered(x, t, order);
      InsertMembers(x, t, order);
      var rt := Insert(x, t, order);
      assert r == [s[0]] + rt;
      forall i, j | 0 <= i < j < |r| ensures !Precedes(r[j], r[i], order) {
        if i == 0 {
          assert r[j] == rt[j - 1];
          assert r[j] in rt;
          if r[j] != x {
            assert r[j] in t;
            var k :| 0 <= k < |t| && t[k] == r[j];
            assert s[k + 1] == r[j];
          }
        } else {
          assert r[i] == rt[i - 1] && r[j] == rt[j - 1];
        }
      }
    }
  }

  lemma WithKeyCons(h: Marker, rest: seq<Marker>, key: int)
    ensures WithKey([h] + rest, key) == (if Key(h) == key then [h] else []) + WithKey(rest, key)
  {
    assert ([h] + rest)[0] == h && ([h] + rest)[1..] == rest;
  }

  lemma {:induction false} InsertWithKey(x: Marker, s: seq<Marker>, order: Order, key: int)
    ensures WithKey(Insert(x, s, order), key) == (if Key(x) == key then [x] else []) + WithKey(s, key)
    decreases |s|
  {
    if s == [] || !Precedes(s[0], x, order) {
      WithKeyCons(x, s, key);
    } else {
      var t := s[1..];
      var rt := Insert(x, t, order);
      InsertWithKey(x, t, order, key);
      WithKeyCons(s[0], rt, key);
      assert s == [s[0]] + t;
      WithKeyCons(s[0], t, key);
      assert Key(s[0]) != Key(x);
    }
  }

  /** The sort is stable: for every key, the markers with that key come out in
      the order they went in. It also yields an ordered permutation. */
  lemma {:induction false} SortFacts(ms: seq<Marker>, order: Order)
    ensures Ordered(Sort(ms, order), order)
    ensures multiset(Sort(ms, order)) == multiset(ms)
    ensures forall key :: WithKey(Sort(ms, order), key) == WithKey(ms, key)
    decreases |ms|
  {
    if ms != [] {
      var t := ms[1..];
      SortFacts(t, order);
      InsertOrdered(ms[0], Sort(t, order), order);
      InsertMembers(ms[0], Sort(t, order), order);
      assert ms == [ms[0]] + t;
      forall key ensures WithKey(Sort(ms, order), key) == WithKey(ms, key) {
        InsertWithKey(ms[0], Sort(t, order), order, key);
      }
    }
  }

  lemma {:induction false} WithKeyMembers(ms: seq<Marker>, key: int)
    ensures forall x :: x in WithKey(ms, key) ==> x in ms && Key(x) == key
    decreases |ms|
  {
    if ms != [] {
      WithKeyMembers(ms[1..], key);
    }
  }

  lemma HeadKeyPresent(a: seq<Marker>)
    ensures a != [] ==> WithKey(a, Key(a[0])) != []
  {
    if a != [] {
      WithKeyCons(a[0], a[1..], Key(a[0]));
      assert a == [a[0]] + a[1..];
    }
  }

  lemma HeadKeysAgree(a: seq<Marker>, b: seq<Marker>, order: Order)
    requires a != [] && b != []
    requires Ordered(a, order) && Ordered(b, order)
    requires forall key :: WithKey(a, key) == WithKey(b, key)
    ensures Key(a[0]) == Key(b[0])
  {
    HeadNotAfter(a, b, order);
    HeadNotAfter(b, a, order);
  }

  /** The head of b cannot go before the head of an ordered a holding the same markers per key. */
  lemma HeadNotAfter(a: seq<Marker>, b: seq<Marker>, order: Order)
    requires a != [] && b != []
    requires Ordered(a, order)
    requires forall key :: WithKey(a, key) == WithKey(b, key)
    ensures !Precedes(b[0], a[0], order)
  {
    var kb := Key(b[0]);
    WithKeyCons(b[0], b[1..], kb);
    assert b == [b[0]] + b[1..];
    WithKeyMembers(a, kb);
    assert b[0] in WithKey(a, kb);
    var i :| 0 <= i < |a| && a[i] == b[0];
    assert i > 0 ==> !Precedes(a[i], a[0], order);
  }


  /** Two ordered sequences holding, key by key, the same markers in the same
      order are equal. */
  lemma {:induction false} OrderedUnique(a: seq<Marker>, b: seq<Marker>, order: Order)
    requires Ordered(a, order) && Ordered(b, order)
    requires forall key :: WithKey(a, key) == WithKey(b, key)
    ensures a == b
    decreases |a| + |b|
  {
    if a == [] || b == [] {
      HeadKeyPresent(a);
      HeadKeyPresent(b);
    } else {
      HeadKeysAgree(a, b, order);
      var k := Key(a[0]);
      assert a == [a[0]] + a[1..] && b == [b[0]] + b[1..];
      WithKeyCons(a[0], a[1..], k);
      WithKeyCons(b[0], b[1..], k);
      assert WithKey(a, k)[0] == a[0] && WithKey(b, k)[0] == b[0];
      assert a[0] == b[0];
      forall key ensures WithKey(a[1..], key) == WithKey(b[1..], key) {
        WithKeyCons(a[0], a[1..], key);
        WithKeyCons(b[0], b[1..], key);
        var head := if k == key then [a[0]] else [];
        assert WithKey(a, key) == WithKey(b, key);
        assert (head + WithKey(a[1..], key))[|head|..] == WithKey(a[1..], key);
        assert (head + WithKey(b[1..], key))[|head|..] == WithKey(b[1..], key);
      }
      assert Ordered(a[1..], order) by {
        forall i, j | 0 <= i < j < |a| - 1 ensures !Precedes(a[1..][j], a[1..][i], order) {
          assert a[1..][i] == a[i + 1] && a[1..][j] == a[j + 1];
        }
      }
      assert Ordered(b[1..], order) by {
        forall i, j | 0 <= i < j < |b| - 1 ensures !Precedes(b[1..][j], b[1..][i], order) {
          assert b[1..][i] == b[i + 1] && b[1..][j] == b[j + 1];
        }
      }
      OrderedUnique(a[1..], b[1..], order);
    }
  }

  /** Sorting forgets any earlier sort on the same key: the order the caller's
      list comes out of a first sort does not change the result of the second. */
  lemma ResortForgetsFirstSort(ms: seq<Marker>, first: Order, second: Order)
    ensures Sort(Sort(ms, first), second) == Sort(ms, second)
  {
    SortFacts(ms, first);
    SortFacts(Sort(ms, first), second);
    SortFacts(ms, second);
    OrderedUnique(Sort(Sort(ms, first), second), Sort(ms, second), second);
  }

  /** Among markers with equal keys, lower ids come first. */
  predicate TiesById(ms: seq<Marker>)
  {
    forall i, j :: 0 <= i < j < |ms| && Key(ms[i]) == Key(ms[j]) ==> ms[i].id < ms[j].id
  }

  lemma {:induction false} InsertTiesById(x: Marker, s: seq<Marker>, order: Order)
    requires TiesById(s)
    requires forall y :: y in s ==> x.id < y.id
    ensures TiesById(Insert(x, s, order))
    decreases |s|
  {
    if s == [] || !Precedes(s[0], x, order) {
      TiesByIdCons(x, s);
    } else {
      var t := s[1..];
      assert s == [s[0]] + t;
      TiesByIdTail(s[0], t);
      InsertTiesById(x, t, order);
      InsertMembers(x, t, order);
      forall y | y in Insert(x, t, order) && Key(y) == Key(s[0]) ensures s[0].id < y.id {
        if y != x {
          var k :| 0 <= k < |t| && t[k] == y;
          assert s[k + 1] == y;
        }
      }
      TiesByIdCons(s[0], Insert(x, t, order));
    }
  }

  /** A marker put in front keeps ties in id order when its id is below that of
      every later marker with the same key. */
  lemma TiesByIdCons(x: Marker, s: seq<Marker>)
    requires TiesById(s)
    requires forall y :: y in s && Key(y) == Key(x) ==> x.id < y.id
    ensures TiesById([x] + s)
  {
    var r := [x] + s;
    forall i, j | 0 <= i < j < |r| && Key(r[i]) == Key(r[j]) ensures r[i].id < r[j].id {
      assert r[j] == s[j - 1];
      if i > 0 {
        assert r[i] == s[i - 1];
      } else {
        assert r[j] in s;
      }
    }
  }

  lemma TiesByIdTail(x: Marker, t: seq<Marker>)
    requires TiesById([x] + t)
    ensures TiesById(t)
  {
    forall i, j | 0 <= i < j < |t| && Key(t[i]) == Key(t[j]) ensures t[i].id < t[j].id {
      assert t[i] == ([x] + t)[i + 1] && t[j] == ([x] + t)[j + 1];
    }
  }


  /** When ids increase along the input, as `generate_Markers` numbers them,
      the sorted list breaks every tie by id. */
  lemma {:induction false} SortTiesById(ms: seq<Marker>, order: Order)
    requires forall i, j :: 0 <= i < j < |ms| ==> ms[i].id < ms[j].id
    ensures TiesById(Sort(ms, order))
    decreases |ms|
  {
    if ms != [] {
      var t := ms[1..];
      SortTiesById(t, order);
      SortFacts(t, order);
      forall y | y in Sort(t, order) ensures ms[0].id < y.id {
        assert y in multiset(Sort(t, order));
        assert y in multiset(t);
        var k :| 0 <= k < |t| && t[k] == y;
        assert ms[k + 1] == y;
      }
      InsertTiesById(ms[0], Sort(t, order), order);
    }
  }

  /** The list sort on the caller's list, done in place. */
  method SortInPlace(a: array<Marker>, order: Order)
    modifies a
    ensures a[..] == Sort(old(a[..]), order)
  {
    var sorted := Sort(a[..], order);
    SortFacts(a[..], order);
    assert |sorted| == a.Length by {
      assert |multiset(sorted)| == |multiset(a[..])|;
    }
    forall i | 0 <= i < a.Length {
      a[i] := sorted[i];
    }
  }
}
