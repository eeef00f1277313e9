/** Doubly linked queues (ngx_queue_t): sequences of entry numbers, the head first. */
module Queue {
  type Id = nat

  /** ngx_queue_remove */
  function Without(q: seq<Id>, id: Id): seq<Id> {
    if q == [] then [] else if q[0] == id then q[1..] else [q[0]] + Without(q[1..], id)
  }

  lemma {:induction false} WithoutRemoves(q: seq<Id>, id: Id)
    requires forall i, j | 0 <= i < j < |q| :: q[i] != q[j]
    requires id in q
    ensures |Without(q, id)| == |q| - 1 && id !in Without(q, id)
    ensures forall x :: x in Without(q, id) <==> x in q && x != id
    ensures forall i, j | 0 <= i < j < |q| - 1 :: Without(q, id)[i] != Without(q, id)[j]
  {
    if q[0] == id {
      assert forall x :: x in q[1..] <==> x in q && x != id by {
        assert forall i | 0 < i < |q| :: q[i] == q[1..][i - 1] && q[i] != id;
      }
    } else {
      var t := q[1..];
      assert id in t;
      WithoutRemoves(t, id);
      var w := Without(t, id);
      assert q[0] !in t;
      assert forall x :: x in q <==> x == q[0] || x in t;
    }
  }

  lemma {:induction false} WithoutMember(q: seq<Id>, id: Id, i: nat) returns (k: nat)
    requires i < |Without(q, id)|
    ensures k < |q| && q[k] == Without(q, id)[i]
  {
    if q[0] == id {
      k := i + 1;
    } else if i == 0 {
      k := 0;
    } else {
      k := WithoutMember(q[1..], id, i - 1);
      k := k + 1;
    }
  }

  /** Without keeps the order of what remains. */
  lemma {:induction false} WithoutIsSubsequence(q: seq<Id>, id: Id, i: nat, j: nat) returns (k: nat, l: nat)
    requires i < j < |Without(q, id)|
    ensures k < l < |q| && q[k] == Without(q, id)[i] && q[l] == Without(q, id)[j]
  {
    if q[0] == id {
      k, l := i + 1, j + 1;
    } else if i == 0 {
      k := 0;
      l := WithoutMember(q[1..], id, j - 1);
      l := l + 1;
    } else {
      k, l := WithoutIsSubsequence(q[1..], id, i - 1, j - 1);
      k, l := k + 1, l + 1;
    }
  }

  lemma {:induction false} WithoutLast(q: seq<Id>)
    requires q != [] && forall i, j | 0 <= i < j < |q| :: q[i] != q[j]
    ensures Without(q, q[|q| - 1]) == q[..|q| - 1]
    decreases |q|
  {
    var last := q[|q| - 1];
    if |q| > 1 {
      var t := q[1..];
      assert t[|t| - 1] == last && q[0] != last;
      WithoutLast(t);
      assert Without(q, last) == [q[0]] + t[..|t| - 1];
    }
  }
}
