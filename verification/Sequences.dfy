/** Concatenating what each element of a sequence contributes. */
module Sequences {
  function Collect<A, B>(s: seq<A>, f: A -> seq<B>): seq<B> {
    if s == [] then [] else f(s[0]) + Collect(s[1..], f)
  }

  lemma CollectOne<A, B>(x: A, f: A -> seq<B>)
    ensures Collect([x], f) == f(x)
  {
    assert Collect([x], f) == f(x) + Collect([], f);
  }

  lemma {:induction false} CollectAppend<A, B>(a: seq<A>, b: seq<A>, f: A -> seq<B>)
    ensures Collect(a + b, f) == Collect(a, f) + Collect(b, f)
  {
    if a == [] {
      assert a + b == b;
    } else {
      CollectAppend(a[1..], b, f);
      assert (a + b)[1..] == a[1..] + b && (a + b)[0] == a[0];
      assert f(a[0]) + (Collect(a[1..], f) + Collect(b, f)) == f(a[0]) + Collect(a[1..], f) + Collect(b, f);
    }
  }

  lemma CollectHead<A, B>(s: seq<A>, f: A -> seq<B>)
    requires s != []
    ensures Collect(s, f) == f(s[0]) + Collect(s[1..], f)
  {
  }

  lemma CollectPush<A, B>(s: seq<A>, x: A, f: A -> seq<B>)
    ensures Collect(s + [x], f) == Collect(s, f) + f(x)
  {
    hide Collect;
    CollectAppend(s, [x], f);
    CollectOne(x, f);
  }

  lemma JoinThree<B>(a: seq<B>, b: seq<B>, c: seq<B>)
    ensures a + (b + c) == a + b + c
  {
  }

  /** The element at `i` contributes between what comes before it and what comes after it. */
  lemma CollectAt<A, B>(s: seq<A>, i: nat, f: A -> seq<B>)
    requires i < |s|
    ensures Collect(s, f) == Collect(s[..i], f) + f(s[i]) + Collect(s[i + 1..], f)
  {
    hide Collect;
    assert s == s[..i] + s[i..];
    CollectAppend(s[..i], s[i..], f);
    CollectHead(s[i..], f);
    JoinThree(Collect(s[..i], f), f(s[i]), Collect(s[i + 1..], f));
  }

  lemma CollectUpdate<A, B>(s: seq<A>, i: nat, x: A, f: A -> seq<B>)
    requires i < |s|
    ensures Collect(s[i := x], f) == Collect(s[..i], f) + f(x) + Collect(s[i + 1..], f)
  {
    hide Collect;
    CollectAt(s[i := x], i, f);
    assert s[i := x][..i] == s[..i] && s[i := x][i + 1..] == s[i + 1..];
  }

  lemma {:induction false} CollectNothing<A, B>(s: seq<A>, f: A -> seq<B>)
    requires forall i :: 0 <= i < |s| ==> f(s[i]) == []
    ensures Collect(s, f) == []
  {
    if s != [] {
      CollectNothing(s[1..], f);
    }
  }
}
