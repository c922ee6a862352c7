/** The order of strings: symbol by symbol, a proper prefix first. */
module TextOrder {
  import Orders

  predicate Less(a: string, b: string)
    decreases |a|
  {
    b != [] && (a == [] || a[0] < b[0] || (a[0] == b[0] && Less(a[1..], b[1..])))
  }

  lemma {:induction false} LessIrreflexive(a: string)
    ensures !Less(a, a)
  {
    if a != [] { LessIrreflexive(a[1..]); }
  }

  lemma {:induction false} LessTransitive(a: string, b: string, c: string)
    requires Less(a, b) && Less(b, c)
    ensures Less(a, c)
    decreases |a|
  {
    if a != [] && a[0] == b[0] == c[0] { LessTransitive(a[1..], b[1..], c[1..]); }
  }

  lemma {:induction false} LessTotal(a: string, b: string)
    ensures Less(a, b) || a == b || Less(b, a)
    decreases |a|
  {
    if a != [] && b != [] && a[0] == b[0] {
      LessTotal(a[1..], b[1..]);
      if a[1..] == b[1..] { assert a == [a[0]] + a[1..] && b == [b[0]] + b[1..]; }
    }
  }

  /** A proper prefix comes first; otherwise the smaller symbol at the first difference decides. */
  ghost predicate ComesFirst(a: string, b: string) {
    a < b || exists k :: 0 <= k < |a| && k < |b| && a[..k] == b[..k] && a[k] < b[k]
  }

  lemma {:induction false} LessIff(a: string, b: string)
    ensures Less(a, b) <==> ComesFirst(a, b)
    decreases |a|
  {
    if a != [] && b != [] {
      if a[0] == b[0] {
        LessIff(a[1..], b[1..]);
        FirstDiffersLater(a, b);
      } else if a[0] < b[0] {
        assert a[..0] == b[..0];
      } else {
        assert !(a < b);
        forall k | 0 <= k < |a| && k < |b| && a[..k] == b[..k] ensures k == 0 {
          SamePrefix(a, b, k);
        }
      }
    }
  }

  lemma SamePrefix(a: string, b: string, k: nat)
    requires k <= |a| && k <= |b| && a[..k] == b[..k]
    ensures forall i :: 0 <= i < k ==> a[i] == b[i]
  {
    assert forall i :: 0 <= i < k ==> a[i] == a[..k][i] && b[i] == b[..k][i];
  }

  lemma FirstDiffersLater(a: string, b: string)
    requires a != [] && b != [] && a[0] == b[0]
    ensures ComesFirst(a, b) <==> ComesFirst(a[1..], b[1..])
  {
    var p, q := a[1..], b[1..];
    assert a == [a[0]] + p && b == [b[0]] + q;
    assert a < b <==> p < q;
    forall k | 0 <= k < |a| && k < |b| && a[..k] == b[..k] && a[k] < b[k]
      ensures ComesFirst(p, q)
    {
      assert p[..k - 1] == a[..k][1..] && q[..k - 1] == b[..k][1..];
    }
    forall k | 0 <= k < |p| && k < |q| && p[..k] == q[..k] && p[k] < q[k]
      ensures ComesFirst(a, b)
    {
      assert a[..k + 1] == [a[0]] + p[..k] && b[..k + 1] == [b[0]] + q[..k];
    }
  }

  lemma LessIsOrder(s: set<string>)
    ensures Orders.IsOrder(Less, s)
  {
    forall x, y | x in s && y in s && Less(x, y) ensures !Less(y, x) {
      if Less(y, x) {
        LessTransitive(x, y, x);
        LessIrreflexive(x);
      }
    }
    forall x, y, z | x in s && y in s && z in s && Less(x, y) && Less(y, z)
      ensures Less(x, z)
    {
      LessTransitive(x, y, z);
    }
    forall x, y | x in s && y in s && x != y ensures Less(x, y) || Less(y, x) { LessTotal(x, y); }
  }
}
