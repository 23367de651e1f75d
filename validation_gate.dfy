/**
 * The validation gate both orchestrators end with: a `foreach` over the
 * parsed listings that adds each valid one to the result's listings and
 * turns each invalid one into an error. Both lists are appended to in
 * input order, so the gate is a stable partition.
 */
module ValidationGate {

  /** The items that pass, in order (defined from the end, the way the loop appends). */
  function Accepted<T>(items: seq<T>, isValid: T -> bool): (r: seq<T>)
    ensures |r| <= |items|
  {
    if items == [] then []
    else
      var last := items[|items| - 1];
      Accepted(items[..|items| - 1], isValid) + (if isValid(last) then [last] else [])
  }

  /** The error of each item that fails, in order. */
  function Rejected<T, E>(items: seq<T>, isValid: T -> bool, toError: T -> E): (r: seq<E>)
    ensures |r| <= |items|
  {
    if items == [] then []
    else
      var last := items[|items| - 1];
      Rejected(items[..|items| - 1], isValid, toError) + (if isValid(last) then [] else [toError(last)])
  }

  /** How many items pass, counted from the front: the reference the gate is compared with. */
  function CountValid<T>(items: seq<T>, isValid: T -> bool): nat {
    if items == [] then 0 else (if isValid(items[0]) then 1 else 0) + CountValid(items[1..], isValid)
  }

  /** Appending to a result that already has a prefix: the loops use this to keep their invariants. */
  lemma AppendAssociates<T>(a: seq<T>, b: seq<T>, c: seq<T>)
    ensures (a + b) + c == a + (b + c)
  {
  }

  /** One more item: it joins the accepted items or adds its error, and nothing else changes. */
  lemma Step<T, E>(items: seq<T>, k: int, isValid: T -> bool, toError: T -> E)
    requires 0 <= k < |items|
    ensures Accepted(items[..k + 1], isValid) ==
            Accepted(items[..k], isValid) + (if isValid(items[k]) then [items[k]] else [])
    ensures Rejected(items[..k + 1], isValid, toError) ==
            Rejected(items[..k], isValid, toError) + (if isValid(items[k]) then [] else [toError(items[k])])
  {
    assert items[..k + 1][..k] == items[..k];
  }

  /** The accepted items of a concatenation are those of each part, parts in order. */
  lemma {:induction false} AcceptedAppend<T>(a: seq<T>, b: seq<T>, isValid: T -> bool)
    ensures Accepted(a + b, isValid) == Accepted(a, isValid) + Accepted(b, isValid)
    decreases |b|
  {
    if b == [] {
      assert a + b == a;
    } else {
      var b' := b[..|b| - 1];
      assert (a + b)[..|a + b| - 1] == a + b';
      assert (a + b)[|a + b| - 1] == b[|b| - 1];
      AcceptedAppend(a, b', isValid);
    }
  }

  /** The errors of a concatenation are those of each part, parts in order. */
  lemma {:induction false} RejectedAppend<T, E>(a: seq<T>, b: seq<T>, isValid: T -> bool, toError: T -> E)
    ensures Rejected(a + b, isValid, toError) == Rejected(a, isValid, toError) + Rejected(b, isValid, toError)
    decreases |b|
  {
    if b == [] {
      assert a + b == a;
    } else {
      var b' := b[..|b| - 1];
      assert (a + b)[..|a + b| - 1] == a + b';
      assert (a + b)[|a + b| - 1] == b[|b| - 1];
      RejectedAppend(a, b', isValid, toError);
    }
  }

  lemma {:induction false} AcceptedMembers<T>(items: seq<T>, isValid: T -> bool)
    ensures forall x :: x in Accepted(items, isValid) <==> x in items && isValid(x)
  {
    if items != [] {
      var init, last := items[..|items| - 1], items[|items| - 1];
      AcceptedMembers(init, isValid);
      assert items == init + [last];
    }
  }

  lemma {:induction false} RejectedMembers<T, E>(items: seq<T>, isValid: T -> bool, toError: T -> E)
    ensures forall e :: e in Rejected(items, isValid, toError) ==>
              exists k | 0 <= k < |items| :: !isValid(items[k]) && e == toError(items[k])
    ensures forall k | 0 <= k < |items| && !isValid(items[k]) :: toError(items[k]) in Rejected(items, isValid, toError)
  {
    if items != [] {
      var n := |items| - 1;
      var init, last := items[..n], items[n];
      RejectedMembers(init, isValid, toError);
      forall e | e in Rejected(items, isValid, toError)
        ensures exists k | 0 <= k < |items| :: !isValid(items[k]) && e == toError(items[k])
      {
        if e in Rejected(init, isValid, toError) {
          var k :| 0 <= k < |init| && !isValid(init[k]) && e == toError(init[k]);
          assert items[k] == init[k];
        } else {
          assert !isValid(items[n]) && e == toError(items[n]);
        }
      }
      forall k | 0 <= k < |items| && !isValid(items[k])
        ensures toError(items[k]) in Rejected(items, isValid, toError)
      {
        if k < n {
          assert init[k] == items[k];
        }
      }
    }
  }

  lemma {:induction false} CountLaw<T, E>(items: seq<T>, isValid: T -> bool, toError: T -> E)
    ensures |Accepted(items, isValid)| == CountValid(items, isValid)
    ensures |Rejected(items, isValid, toError)| == |items| - CountValid(items, isValid)
  {
    if items != [] {
      var head, tail := [items[0]], items[1..];
      assert items == head + tail;
      CountLaw(tail, isValid, toError);
      AcceptedAppend(head, tail, isValid);
      RejectedAppend(head, tail, isValid, toError);
      assert head[..0] == [];
    }
  }

  /**
   * Every item lands in exactly one list: as many accepted items as valid
   * ones, an error for each of the others, an item is accepted exactly
   * when it is valid, and an error is reported exactly for an invalid item.
   */
  lemma PartitionLaw<T, E>(items: seq<T>, isValid: T -> bool, toError: T -> E)
    ensures |Accepted(items, isValid)| == CountValid(items, isValid)
    ensures |Rejected(items, isValid, toError)| == |items| - CountValid(items, isValid)
    ensures forall x :: x in Accepted(items, isValid) <==> x in items && isValid(x)
    ensures forall e :: e in Rejected(items, isValid, toError) <==>
              exists k | 0 <= k < |items| :: !isValid(items[k]) && e == toError(items[k])
  {
    CountLaw(items, isValid, toError);
    AcceptedMembers(items, isValid);
    RejectedMembers(items, isValid, toError);
  }
}
