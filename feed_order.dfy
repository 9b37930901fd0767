/**
 * The ordering step of the feed: `Array.prototype.sort` with the comparator
 * `(a, b) => b.createdAt - a.createdAt`. Section 23.1.3.30 of ECMA-262
 * (2023 edition) requires the sort to be stable, so the result is the
 * newest-first order in which items with equal `createdAt` keep their order.
 */
module FeedOrder {
  import opened Records

  /** Non-increasing `createdAt`: newest first. */
  ghost predicate IsNewestFirst(s: seq<Notification>) {
    forall i, j :: 0 <= i < j < |s| ==> s[i].CreatedAt() >= s[j].CreatedAt()
  }

  /** The items of `s` created at time `t`, in their order in `s`. */
  function CreatedAtTime(s: seq<Notification>, t: int): (r: seq<Notification>)
    ensures forall x :: x in r <==> x in s && x.CreatedAt() == t
  {
    if s == [] then []
    else (if s[0].CreatedAt() == t then [s[0]] else []) + CreatedAtTime(s[1..], t)
  }

  /**
   * Places `x` in front of the first item of `s` that is not newer than it,
   * which is where a stable sort puts an item that came before all of `s`.
   */
  function Insert(x: Notification, s: seq<Notification>): (r: seq<Notification>)
    ensures multiset(r) == multiset(s) + multiset{x}
  {
    if s == [] || s[0].CreatedAt() <= x.CreatedAt() then [x] + s
    else
      assert s == [s[0]] + s[1..];
      [s[0]] + Insert(x, s[1..])
  }

  lemma {:induction false} InsertKeepsOrder(x: Notification, s: seq<Notification>)
    requires IsNewestFirst(s)
    ensures IsNewestFirst(Insert(x, s))
  {
    var r := Insert(x, s);
    if s == [] || s[0].CreatedAt() <= x.CreatedAt() {
      forall i, j | 0 <= i < j < |r| ensures r[i].CreatedAt() >= r[j].CreatedAt() {
        assert r[j] == s[j - 1];
        if i > 0 {
          assert r[i] == s[i - 1];
        }
      }
    } else {
      var tail := Insert(x, s[1..]);
      InsertKeepsOrder(x, s[1..]);
      forall i, j | 0 <= i < j < |r| ensures r[i].CreatedAt() >= r[j].CreatedAt() {
        assert r[j] == tail[j - 1];
        if i == 0 {
          InsertedFrom(x, s[1..], j - 1);
        } else {
          assert r[i] == tail[i - 1];
        }
      }
    }
  }

  /** Every item of `Insert(x, s)` is `x` or an item of `s`. */
  lemma InsertedFrom(x: Notification, s: seq<Notification>, k: int)
    requires 0 <= k < |Insert(x, s)|
    ensures Insert(x, s)[k] == x || Insert(x, s)[k] in s
  {
    var r := Insert(x, s);
    assert r[k] in multiset(r);
  }

  /** The stable newest-first sort (an insertion sort). */
  function SortNewestFirst(s: seq<Notification>): (r: seq<Notification>)
    ensures multiset(r) == multiset(s)
    ensures IsNewestFirst(r)
  {
    if s == [] then []
    else
      assert s == [s[0]] + s[1..];
      var sorted := SortNewestFirst(s[1..]);
      InsertKeepsOrder(s[0], sorted);
      Insert(s[0], sorted)
  }

  lemma {:induction false} InsertKeepsTies(x: Notification, s: seq<Notification>, t: int)
    ensures CreatedAtTime(Insert(x, s), t) == (if x.CreatedAt() == t then [x] else []) + CreatedAtTime(s, t)
  {
    if s == [] || s[0].CreatedAt() <= x.CreatedAt() {
      assert ([x] + s)[1..] == s;
    } else {
      InsertKeepsTies(x, s[1..], t);
      assert ([s[0]] + Insert(x, s[1..]))[1..] == Insert(x, s[1..]);
    }
  }

  /** Stability: the items created at any one time keep their relative order. */
  lemma {:induction false} SortIsStable(s: seq<Notification>, t: int)
    ensures CreatedAtTime(SortNewestFirst(s), t) == CreatedAtTime(s, t)
  {
    if s != [] {
      SortIsStable(s[1..], t);
      InsertKeepsTies(s[0], SortNewestFirst(s[1..]), t);
    }
  }

  /**
   * A newest-first order that keeps ties in their order is unique: any two
   * such arrangements of the same items are equal. So the sort's result is
   * fully determined by its input.
   */
  lemma {:induction false} StableOrderIsUnique(a: seq<Notification>, b: seq<Notification>)
    requires IsNewestFirst(a) && IsNewestFirst(b)
    requires forall t :: CreatedAtTime(a, t) == CreatedAtTime(b, t)
    ensures a == b
    decreases |a|
  {
    BothEmptyOrNot(a, b);
    if a != [] {
      HeadsAgree(a, b);
      TailsAgree(a, b);
      StableOrderIsUnique(a[1..], b[1..]);
      assert a == [a[0]] + a[1..];
      assert b == [b[0]] + b[1..];
    }
  }

  lemma BothEmptyOrNot(a: seq<Notification>, b: seq<Notification>)
    requires forall t :: CreatedAtTime(a, t) == CreatedAtTime(b, t)
    ensures a == [] <==> b == []
  {
    if a != [] {
      assert a[0] in CreatedAtTime(b, a[0].CreatedAt());
    }
    if b != [] {
      assert b[0] in CreatedAtTime(a, b[0].CreatedAt());
    }
  }

  lemma HeadsAgree(a: seq<Notification>, b: seq<Notification>)
    requires a != [] && b != []
    requires IsNewestFirst(a) && IsNewestFirst(b)
    requires forall t :: CreatedAtTime(a, t) == CreatedAtTime(b, t)
    ensures a[0] == b[0]
  {
    var ta, tb := a[0].CreatedAt(), b[0].CreatedAt();
    assert b[0] in CreatedAtTime(b, tb);
    assert b[0] in CreatedAtTime(a, tb);
    assert a[0] in CreatedAtTime(a, ta);
    assert a[0] in CreatedAtTime(b, ta);
    assert ta == tb;
    assert CreatedAtTime(a, ta)[0] == a[0];
    assert CreatedAtTime(b, ta)[0] == b[0];
  }

  lemma TailsAgree(a: seq<Notification>, b: seq<Notification>)
    requires a != [] && b != [] && a[0] == b[0]
    requires forall t :: CreatedAtTime(a, t) == CreatedAtTime(b, t)
    ensures forall t :: CreatedAtTime(a[1..], t) == CreatedAtTime(b[1..], t)
  {
    forall t ensures CreatedAtTime(a[1..], t) == CreatedAtTime(b[1..], t) {
      var head := if a[0].CreatedAt() == t then [a[0]] else [];
      assert CreatedAtTime(a, t) == head + CreatedAtTime(a[1..], t);
      assert CreatedAtTime(b, t) == head + CreatedAtTime(b[1..], t);
      assert CreatedAtTime(a[1..], t) == CreatedAtTime(a, t)[|head|..];
    }
  }

  /** The result of the sort is the one stable newest-first arrangement of its input. */
  lemma SortIsTheStableOrder(s: seq<Notification>, r: seq<Notification>)
    requires IsNewestFirst(r)
    requires forall t :: CreatedAtTime(r, t) == CreatedAtTime(s, t)
    ensures r == SortNewestFirst(s)
  {
    forall t ensures CreatedAtTime(SortNewestFirst(s), t) == CreatedAtTime(r, t) {
      SortIsStable(s, t);
    }
    StableOrderIsUnique(SortNewestFirst(s), r);
  }
}
