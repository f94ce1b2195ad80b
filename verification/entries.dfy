/**
 Call-history records and the order `sorted` puts them in: Entry.__lt__ looks
 at the date alone, and Python's sort is stable, so entries that share a date
 stay in the order they were fetched.
 */
module Entries {

  /** One call-history record. `date` is an instant (seconds since
      0001-01-01T00:00:00); `kind` is the source's `type` field; `cost` is a
      float in the source and is carried along, never computed with. */
  datatype Entry = Entry(date: int, kind: string, direction: string, quantity: int, cost: real, number: string)

  /** Entry.__lt__: compares dates and nothing else. */
  predicate Less(a: Entry, b: Entry) {
    a.date < b.date
  }

  /** No entry is ever less than an earlier one. */
  predicate Ordered(s: seq<Entry>) {
    forall i, j :: 0 <= i < j < |s| ==> !Less(s[j], s[i])
  }

  /** The entries of `s` dated `d`, in the order of `s`. */
  function WithDate(s: seq<Entry>, d: int): (r: seq<Entry>)
    ensures |r| <= |s|
  {
    if s == [] then []
    else (if s[0].date == d then [s[0]] else []) + WithDate(s[1..], d)
  }

  /** The entries kept by WithDate are the entries of `s` dated `d`. */
  lemma {:induction false} WithDateMembers(s: seq<Entry>, d: int, e: Entry)
    ensures e in WithDate(s, d) <==> e in s && e.date == d
  {
    if s != [] {
      WithDateMembers(s[1..], d, e);
      assert s == [s[0]] + s[1..];
    }
  }

  /** Filtering by date distributes over concatenation. */
  lemma {:induction false} WithDateAppend(a: seq<Entry>, b: seq<Entry>, d: int)
    ensures WithDate(a + b, d) == WithDate(a, d) + WithDate(b, d)
  {
    if a != [] {
      var head := if a[0].date == d then [a[0]] else [];
      calc {
        WithDate(a + b, d);
      ==  { TailOfAppend(a, b); }
        head + WithDate(a[1..] + b, d);
      ==  { WithDateAppend(a[1..], b, d); }
        head + (WithDate(a[1..], d) + WithDate(b, d));
      ==
        WithDate(a, d) + WithDate(b, d);
      }
    } else {
      assert a + b == b;
    }
  }

  /** The head and tail of a concatenation whose left part is non-empty. */
  lemma TailOfAppend<T>(a: seq<T>, b: seq<T>)
    requires a != []
    ensures (a + b)[0] == a[0] && (a + b)[1..] == a[1..] + b
  {
  }

  /** A sequence dated after `d` throughout has nothing dated `d`. */
  lemma {:induction false} NoneWithDate(s: seq<Entry>, d: int)
    requires forall i :: 0 <= i < |s| ==> s[i].date > d
    ensures WithDate(s, d) == []
  {
    if s != [] {
      NoneWithDate(s[1..], d);
    }
  }

  /** Place `x` in front of the first entry it is less than, i.e. after every
      entry whose date is not later than its own. */
  function Insert(x: Entry, s: seq<Entry>): (r: seq<Entry>)
    ensures multiset(r) == multiset(s) + multiset{x}
  {
    if s == [] then [x]
    else if Less(x, s[0]) then [x] + s
    else
      assert s == [s[0]] + s[1..];
      [s[0]] + Insert(x, s[1..])
  }

  /** Inserting into an ordered sequence keeps it ordered. */
  lemma {:induction false} InsertOrdered(x: Entry, s: seq<Entry>)
    requires Ordered(s)
    ensures Ordered(Insert(x, s))
  {
    if s != [] && !Less(x, s[0]) {
      var rest := Insert(x, s[1..]);
      InsertOrdered(x, s[1..]);
      forall e | e in rest ensures !Less(e, s[0]) {
        assert e in multiset(rest);
        assert e in s[1..] || e == x;
      }
      var r := [s[0]] + rest;
      forall i, j | 0 <= i < j < |r| ensures !Less(r[j], r[i]) {
        if i == 0 {
          assert r[j] in rest;
        }
      }
    }
  }

  lemma WithDateSingle(e: Entry, d: int)
    ensures WithDate([e], d) == if e.date == d then [e] else []
  {
    assert [e][1..] == [];
  }

  /** Inserting `x` into an ordered sequence puts it after every entry of its date. */
  lemma {:induction false} InsertStable(x: Entry, s: seq<Entry>, d: int)
    requires Ordered(s)
    ensures WithDate(Insert(x, s), d) == WithDate(s, d) + (if x.date == d then [x] else [])
  {
    var tail := if x.date == d then [x] else [];
    WithDateSingle(x, d);
    if s == [] {
      assert Insert(x, s) == [x];
      assert WithDate(s, d) == [];
    } else if Less(x, s[0]) {
      assert Insert(x, s) == [x] + s;
      WithDateAppend([x], s, d);
      if x.date == d {
        OrderedHead(s);
        NoneWithDate(s, d);
      }
    } else {
      var s0, rest := s[0], s[1..];
      assert s == [s0] + rest;
      OrderedHead(s);
      calc {
        WithDate(Insert(x, s), d);
        WithDate([s0] + Insert(x, rest), d);
        { WithDateAppend([s0], Insert(x, rest), d); }
        WithDate([s0], d) + WithDate(Insert(x, rest), d);
        { InsertStable(x, rest, d); }
        WithDate([s0], d) + (WithDate(rest, d) + tail);
        WithDate([s0], d) + WithDate(rest, d) + tail;
        { WithDateAppend([s0], rest, d); }
        WithDate(s, d) + tail;
      }
    }
  }

  /** sorted(entries): a stable insertion sort driven by Entry.__lt__. */
  function Sort(s: seq<Entry>): (r: seq<Entry>)
    ensures Ordered(r)
    ensures multiset(r) == multiset(s)
  {
    if s == [] then []
    else
      assert s == s[..|s| - 1] + [s[|s| - 1]];
      InsertOrdered(s[|s| - 1], Sort(s[..|s| - 1]));
      Insert(s[|s| - 1], Sort(s[..|s| - 1]))
  }

  /** The sort is stable: the entries of any one date appear in the sorted
      output exactly as, and in the order, they appear in the input. */
  lemma {:induction false} SortStable(s: seq<Entry>, d: int)
    ensures WithDate(Sort(s), d) == WithDate(s, d)
  {
    if s != [] {
      var init, x := s[..|s| - 1], s[|s| - 1];
      var tail := if x.date == d then [x] else [];
      assert WithDate([x], d) == tail by {
        assert [x][1..] == [];
      }
      calc {
        WithDate(Sort(s), d);
        WithDate(Insert(x, Sort(init)), d);
      ==  { InsertStable(x, Sort(init), d); }
        WithDate(Sort(init), d) + tail;
      ==  { SortStable(init, d); }
        WithDate(init, d) + tail;
      ==  { WithDateAppend(init, [x], d); assert s == init + [x]; }
        WithDate(s, d);
      }
    }
  }

  /** Order plus stability pin the result down: an ordered sequence whose
      entries of every date match those of `s`, in order, is Sort(s). */
  lemma {:induction false} OrderedStableUnique(a: seq<Entry>, b: seq<Entry>)
    requires Ordered(a) && Ordered(b)
    requires forall d :: WithDate(a, d) == WithDate(b, d)
    ensures a == b
  {
    if a == [] || b == [] {
      var c := if a == [] then b else a;
      if c != [] {
        var first := WithDate(c, c[0].date);
      }
    } else {
      var x, y := a[0], b[0];
      OrderedHead(a);
      OrderedHead(b);
      WithDateSingle(x, x.date);
      WithDateSingle(y, y.date);
      WithDateAppend([x], a[1..], x.date);
      WithDateAppend([y], b[1..], y.date);
      assert a == [x] + a[1..] && b == [y] + b[1..];
      if x.date < y.date {
        NoneWithDate(b, x.date);
      } else if y.date < x.date {
        NoneWithDate(a, y.date);
      } else {
        assert WithDate(a, x.date)[0] == x;
        assert WithDate(b, x.date)[0] == y;
        forall d ensures WithDate(a[1..], d) == WithDate(b[1..], d) {
          WithDateAppend([x], a[1..], d);
          WithDateAppend([y], b[1..], d);
          var head := WithDate([x], d);
          assert WithDate(a[1..], d) == WithDate(a, d)[|head|..];
        }
        OrderedStableUnique(a[1..], b[1..]);
      }
    }
  }

  /** The head of an ordered sequence is dated no later than any of its
      entries, and what follows the head is ordered. */
  lemma OrderedHead(s: seq<Entry>)
    requires Ordered(s) && s != []
    ensures forall i :: 0 <= i < |s| ==> s[0].date <= s[i].date
    ensures Ordered(s[1..])
  {
    forall i, j | 0 <= i < j < |s[1..]| ensures !Less(s[1..][j], s[1..][i]) {
      assert s[1..][i] == s[i + 1] && s[1..][j] == s[j + 1];
    }
  }

  /** Sort(s) is the one ordered rearrangement of `s` that keeps equal-date
      entries in their original order. */
  lemma SortCharacterized(s: seq<Entry>, r: seq<Entry>)
    requires Ordered(r)
    requires forall d :: WithDate(r, d) == WithDate(s, d)
    ensures r == Sort(s)
  {
    forall d ensures WithDate(r, d) == WithDate(Sort(s), d) {
      SortStable(s, d);
    }
    OrderedStableUnique(r, Sort(s));
  }

  /** Entries with the same date are never less than one another, whatever
      their other fields; Less is a strict weak order. */
  lemma LessIsStrictWeakOrder(a: Entry, b: Entry, c: Entry)
    ensures !Less(a, a)
    ensures Less(a, b) ==> !Less(b, a)
    ensures Less(a, b) && Less(b, c) ==> Less(a, c)
    ensures !Less(a, b) && !Less(b, a) <==> a.date == b.date
  {
  }
}
