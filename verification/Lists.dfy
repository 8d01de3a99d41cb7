/** Lists without repetitions, and what is left when a member goes. */
module Lists {

  ghost predicate Distinct<T>(l: seq<T>) {
    forall j, k :: 0 <= j < k < |l| ==> l[j] != l[k]
  }

  function Without<T>(l: seq<T>, j: nat): seq<T>
    requires j < |l|
  {
    l[..j] + l[j + 1..]
  }

  lemma WithoutMembers<T>(l: seq<T>, j: nat)
    requires j < |l| && Distinct(l)
    ensures forall b :: b in Without(l, j) <==> b in l && b != l[j]
  {
    forall b | b in l && b != l[j] ensures b in Without(l, j) {
      var k :| 0 <= k < |l| && l[k] == b;
      assert Without(l, j)[if k < j then k else k - 1] == b;
    }
    forall b | b in Without(l, j) ensures b in l && b != l[j] {
      var k: nat :| k < |Without(l, j)| && Without(l, j)[k] == b;
      assert l[if k < j then k else k + 1] == b;
    }
  }
}
