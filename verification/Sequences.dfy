/** Equalities between concatenations, each proved once. */
module Sequences {

  lemma Associates<T>(a: seq<T>, b: seq<T>, c: seq<T>, d: seq<T>)
    ensures a + (b + c + d) == a + b + c + d
  {
  }

  lemma Extends<T>(prefix: seq<T>, body: seq<T>, a: seq<T>, b: seq<T>, c: seq<T>, d: seq<T>)
    ensures prefix + body + a + b + c + d == prefix + (body + a + b + c + d)
  {
  }

  lemma Regroup<T>(a: seq<T>, b: seq<T>, c: seq<T>, d: seq<T>, e: seq<T>)
    requires b + c == d + e
    ensures a + b + c == a + d + e
  {
    assert a + b + c == a + (b + c) && a + d + e == a + (d + e);
  }

  lemma SplitPrefix<T>(a: seq<T>, x: T, b: seq<T>, all: seq<T>)
    requires a + [x] + b <= all
    ensures |a| < |all| && all[|a|] == x && all[..|a|] == a && b <= all[|a| + 1..]
    ensures a + b <= all[..|a|] + all[|a| + 1..]
  {
    var whole := a + [x] + b;
    assert whole[|a|] == x && whole[..|a|] == a && whole[|a| + 1..] == b;
    assert forall i | 0 <= i < |whole| :: all[i] == whole[i];
  }
}
