/** Option, the value a single-document lookup returns (a document or null). */
module Wrappers {
  datatype Option<+T> = None | Some(value: T) {
    function GetOr(default: T): T {
      match this
      case Some(v) => v
      case None => default
    }
  }
}

/**
 * A document collection as the document store presents it to the data-access
 * objects: a sequence of documents in natural (insertion) order, queried with
 * a filter. A filter is a predicate on documents; `find`, `count`, `findOne`,
 * `deleteOne` and `updateOne` are the store's operations over it.
 */
module Collection {
  import opened Wrappers

  /** `find(filter)`: every document that matches, in store order. */
  function Find<T(!new)>(s: seq<T>, p: T -> bool): (r: seq<T>)
    ensures |r| <= |s|
    ensures forall x :: x in r <==> x in s && p(x)
  {
    if s == [] then []
    else if p(s[0]) then [s[0]] + Find(s[1..], p)
    else Find(s[1..], p)
  }

  /** `count(filter)`: the number of documents that match. */
  function Count<T(!new)>(s: seq<T>, p: T -> bool): (n: nat)
    ensures n <= |s|
  {
    if s == [] then 0 else (if p(s[0]) then 1 else 0) + Count(s[1..], p)
  }

  /** Position of the first matching document, or |s| when none matches. */
  function IndexOf<T(!new)>(s: seq<T>, p: T -> bool): (i: nat)
    ensures i <= |s|
    ensures i < |s| ==> p(s[i])
    ensures forall j :: 0 <= j < i ==> !p(s[j])
  {
    if s == [] then 0 else if p(s[0]) then 0 else 1 + IndexOf(s[1..], p)
  }

  /** `findOne(filter)` / `findById(id)`: the first matching document, or null. */
  function FindOne<T(!new)>(s: seq<T>, p: T -> bool): (r: Option<T>)
    ensures r.Some? ==> r.value in s && p(r.value)
    ensures r.None? <==> forall x :: x in s ==> !p(x)
  {
    var i := IndexOf(s, p);
    if i < |s| then Some(s[i])
    else
      assert forall x :: x in s ==> !p(x) by {
        forall x | x in s ensures !p(x) {
          var j :| 0 <= j < |s| && s[j] == x;
        }
      }
      None
  }

  /**
   * `deleteOne(filter)`: removes the first matching document, if any; every
   * other document stays, in the same order.
   */
  function DeleteOne<T(!new)>(s: seq<T>, p: T -> bool): (r: seq<T>)
    ensures FindOne(s, p).None? ==> r == s
    ensures FindOne(s, p).Some? ==>
      |r| == |s| - 1 && multiset(r) + multiset{FindOne(s, p).value} == multiset(s)
    ensures forall j :: 0 <= j < |r| ==> r[j] == s[if j < IndexOf(s, p) then j else j + 1]
  {
    var i := IndexOf(s, p);
    if i < |s| then
      assert s == s[..i] + [s[i]] + s[i + 1..];
      s[..i] + s[i + 1..]
    else s
  }

  /**
   * `updateOne(filter, f)`: applies f to the first matching document, if any;
   * every other position keeps its document.
   */
  function UpdateOne<T(!new)>(s: seq<T>, p: T -> bool, f: T -> T): (r: seq<T>)
    ensures |r| == |s|
    ensures FindOne(s, p).None? ==> r == s
    ensures forall j :: 0 <= j < |s| && j != IndexOf(s, p) ==> r[j] == s[j]
    ensures IndexOf(s, p) < |s| ==> r[IndexOf(s, p)] == f(s[IndexOf(s, p)])
  {
    var i := IndexOf(s, p);
    if i < |s| then s[i := f(s[i])] else s
  }

  /** Finding distributes over concatenation, so `find` keeps store order. */
  lemma {:induction false} FindConcat<T(!new)>(a: seq<T>, b: seq<T>, p: T -> bool)
    ensures Find(a + b, p) == Find(a, p) + Find(b, p)
  {
    if a == [] {
      assert a + b == b;
    } else {
      assert (a + b)[1..] == a[1..] + b;
      FindConcat(a[1..], b, p);
    }
  }

  /** A document appended to the collection is found last, if it matches. */
  lemma FindAppend<T(!new)>(s: seq<T>, x: T, p: T -> bool)
    ensures Find(s + [x], p) == Find(s, p) + (if p(x) then [x] else [])
  {
    FindConcat(s, [x], p);
    assert Find([x], p) == (if p(x) then [x] else []) by {
      assert [x][1..] == [];
    }
  }

  /** With a filter every document matches (the empty filter), find returns the whole collection. */
  lemma {:induction false} FindAll<T(!new)>(s: seq<T>, p: T -> bool)
    requires forall x :: p(x)
    ensures Find(s, p) == s
  {
    if s != [] {
      FindAll(s[1..], p);
    }
  }

  /** `count(filter)` is the length of `find(filter)`. */
  lemma {:induction false} CountFind<T(!new)>(s: seq<T>, p: T -> bool)
    ensures Count(s, p) == |Find(s, p)|
  {
    if s != [] {
      CountFind(s[1..], p);
    }
  }

  lemma {:induction false} CountConcat<T(!new)>(a: seq<T>, b: seq<T>, p: T -> bool)
    ensures Count(a + b, p) == Count(a, p) + Count(b, p)
  {
    if a == [] {
      assert a + b == b;
    } else {
      assert (a + b)[1..] == a[1..] + b;
      CountConcat(a[1..], b, p);
    }
  }

  lemma CountAppend<T(!new)>(s: seq<T>, x: T, p: T -> bool)
    ensures Count(s + [x], p) == Count(s, p) + (if p(x) then 1 else 0)
  {
    CountConcat(s, [x], p);
    assert [x][1..] == [];
  }

  /** No document matches exactly when the count is zero. */
  lemma CountZero<T(!new)>(s: seq<T>, p: T -> bool)
    ensures Count(s, p) == 0 <==> forall x :: x in s ==> !p(x)
  {
    CountFind(s, p);
    if Count(s, p) != 0 {
      assert Find(s, p)[0] in Find(s, p);
    }
  }

  /** The count depends only on which documents the collection holds, not on their order. */
  lemma {:induction false} CountMultiset<T(!new)>(a: seq<T>, b: seq<T>, p: T -> bool)
    requires multiset(a) == multiset(b)
    ensures Count(a, p) == Count(b, p)
    decreases |a|
  {
    if a != [] {
      var x := a[0];
      assert x in multiset(b);
      var i :| 0 <= i < |b| && b[i] == x;
      assert b == b[..i] + [x] + b[i + 1..];
      var rest := b[..i] + b[i + 1..];
      assert a == [x] + a[1..];
      assert multiset(b) == multiset(b[..i]) + multiset{x} + multiset(b[i + 1..]);
      assert multiset(a) == multiset{x} + multiset(a[1..]);
      assert multiset(rest) == multiset(b[..i]) + multiset(b[i + 1..]);
      assert multiset(a[1..]) == multiset(a) - multiset{x};
      assert multiset(rest) == multiset(b) - multiset{x};
      CountMultiset(a[1..], rest, p);
      CountConcat(b[..i] + [x], b[i + 1..], p);
      CountConcat(b[..i], [x], p);
      CountConcat(b[..i], b[i + 1..], p);
      assert [x][1..] == [];
    } else {
      assert b == [];
    }
  }

  /** Replacing one document changes the count by what the old and the new document contribute. */
  lemma CountUpdate<T(!new)>(s: seq<T>, k: nat, y: T, p: T -> bool)
    requires k < |s|
    ensures Count(s[k := y], p) == Count(s, p) - (if p(s[k]) then 1 else 0) + (if p(y) then 1 else 0)
  {
    var t := s[k := y];
    assert s == s[..k] + [s[k]] + s[k + 1..];
    assert t == s[..k] + [y] + s[k + 1..];
    CountConcat(s[..k] + [s[k]], s[k + 1..], p);
    CountConcat(s[..k], [s[k]], p);
    CountConcat(s[..k] + [y], s[k + 1..], p);
    CountConcat(s[..k], [y], p);
    assert [s[k]][1..] == [] && [y][1..] == [];
  }

  /**
   * Deleting with filter q lowers the count under filter p by one exactly when
   * the deleted document also matches p.
   */
  lemma DeleteOneCount<T(!new)>(s: seq<T>, q: T -> bool, p: T -> bool)
    ensures Count(DeleteOne(s, q), p) ==
      Count(s, p) - (if FindOne(s, q).Some? && p(FindOne(s, q).value) then 1 else 0)
  {
    var i := IndexOf(s, q);
    if i < |s| {
      assert s == s[..i] + [s[i]] + s[i + 1..];
      CountConcat(s[..i] + [s[i]], s[i + 1..], p);
      CountConcat(s[..i], [s[i]], p);
      CountConcat(s[..i], s[i + 1..], p);
      assert [s[i]][1..] == [];
    }
  }

  /**
   * Deleting a document just appended to a collection in which nothing
   * matched gives back the original collection.
   */
  lemma DeleteOneAppended<T(!new)>(s: seq<T>, x: T, p: T -> bool)
    requires forall y :: y in s ==> !p(y)
    requires p(x)
    ensures DeleteOne(s + [x], p) == s
  {
    var t := s + [x];
    assert IndexOf(t, p) == |s| by {
      assert t[|s|] == x;
      assert forall j :: 0 <= j < |s| ==> t[j] == s[j] && s[j] in s;
    }
    assert t[..|s|] == s;
  }

  /**
   * Appending the document that was just deleted, when it was the only match,
   * restores the collection up to order.
   */
  lemma AppendDeleted<T(!new)>(s: seq<T>, p: T -> bool)
    requires Count(s, p) == 1
    ensures FindOne(s, p).Some?
    ensures var x := FindOne(s, p).value;
      multiset(DeleteOne(s, p) + [x]) == multiset(s) &&
      forall y :: y in DeleteOne(s, p) ==> !p(y)
  {
    CountZero(s, p);
    var x := FindOne(s, p).value;
    DeleteOneCount(s, p, p);
    CountZero(DeleteOne(s, p), p);
  }

  /**
   * Updating twice with an idempotent update that keeps the document matching
   * is the same as updating once.
   */
  lemma UpdateOneTwice<T(!new)>(s: seq<T>, p: T -> bool, f: T -> T)
    requires forall x :: p(x) ==> p(f(x)) && f(f(x)) == f(x)
    ensures UpdateOne(UpdateOne(s, p, f), p, f) == UpdateOne(s, p, f)
  {
    var i := IndexOf(s, p);
    var t := UpdateOne(s, p, f);
    if i < |s| {
      assert IndexOf(t, p) == i by {
        assert p(t[i]);
        assert forall j :: 0 <= j < i ==> t[j] == s[j];
        IndexOfFirst(t, p, i);
      }
    } else {
      assert t == s;
    }
  }

  /** The first position whose document matches is IndexOf. */
  lemma IndexOfFirst<T(!new)>(s: seq<T>, p: T -> bool, i: nat)
    requires i < |s| && p(s[i])
    requires forall j :: 0 <= j < i ==> !p(s[j])
    ensures IndexOf(s, p) == i
  {
  }
}
