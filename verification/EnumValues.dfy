/** Enumeration values and their lookup by ordinal: `include/meta/EnumDef.h`. */
module EnumValues {
  import opened Outcomes

  datatype EnumValue = EnumValue(ordinal: int, name: string)

  ghost predicate Dense(values: seq<EnumValue>) {
    forall i :: 0 <= i < |values| ==> values[i].ordinal == i
  }

  ghost predicate Sorted(values: seq<EnumValue>) {
    forall i, j :: 0 <= i < j < |values| ==> values[i].ordinal < values[j].ordinal
  }

  /** `ValuesAreSorted` compares neighbours only, and that is enough. */
  method ValuesAreSorted(values: seq<EnumValue>) returns (r: bool)
    ensures r <==> Sorted(values)
  {
    var i := 1;
    while i < |values|
      invariant 1 <= i
      invariant forall a, b :: 0 <= a < b < i && b < |values| ==> values[a].ordinal < values[b].ordinal
    {
      if !(values[i - 1].ordinal < values[i].ordinal) {
        return false;
      }
      i := i + 1;
    }
    return true;
  }

  /** The reference: a walk that stops at the first value with the ordinal. */
  function Walk(values: seq<EnumValue>, ordinal: int): Option<EnumValue> {
    if values == [] then None
    else if values[0].ordinal == ordinal then Some(values[0])
    else Walk(values[1..], ordinal)
  }

  lemma {:induction false} WalkFinds(values: seq<EnumValue>, ordinal: int, k: nat)
    requires k < |values| && values[k].ordinal == ordinal
    requires forall i :: 0 <= i < k ==> values[i].ordinal != ordinal
    ensures Walk(values, ordinal) == Some(values[k])
  {
    if k > 0 {
      WalkFinds(values[1..], ordinal, k - 1);
    }
  }

  lemma {:induction false} WalkMisses(values: seq<EnumValue>, ordinal: int)
    requires forall i :: 0 <= i < |values| ==> values[i].ordinal != ordinal
    ensures Walk(values, ordinal) == None
  {
    if values != [] {
      WalkMisses(values[1..], ordinal);
    }
  }

  /** What a lookup finds: a negative ordinal is never looked for. */
  function Found(values: seq<EnumValue>, ordinal: int): Option<EnumValue> {
    if ordinal < 0 then None else Walk(values, ordinal)
  }

  /**
   `ValueOf`: the slot the ordinal itself names, then a binary search. For every ordinal that is not
   negative the answer is the walk's; `searched` records whether the binary search was entered.
   */
  method ValueOf(values: seq<EnumValue>, ordinal: int) returns (r: Option<EnumValue>, searched: bool)
    requires Sorted(values)
    ensures r == Found(values, ordinal)
    ensures Dense(values) && 0 <= ordinal < |values| ==> !searched
  {
    searched := false;
    if ordinal < 0 {
      return None, searched;
    }
    if ordinal < |values| && values[ordinal].ordinal == ordinal {
      WalkFinds(values, ordinal, ordinal);
      return Some(values[ordinal]), searched;
    }
    searched := true;
    var low, high := 0, |values|;
    while low < high
      invariant 0 <= low <= high <= |values|
      invariant forall i :: 0 <= i < low ==> values[i].ordinal < ordinal
      invariant forall i :: high <= i < |values| ==> values[i].ordinal > ordinal
    {
      var mid := low + (high - low) / 2;
      if values[mid].ordinal == ordinal {
        WalkFinds(values, ordinal, mid);
        return Some(values[mid]), searched;
      }
      if values[mid].ordinal < ordinal {
        low := mid + 1;
      } else {
        high := mid;
      }
    }
    WalkMisses(values, ordinal);
    return None, searched;
  }

  /** So the lookup and the walk agree exactly when the ordinal is not a declared negative one. */
  lemma AgreesUnlessNegative(values: seq<EnumValue>, ordinal: int)
    requires Sorted(values)
    ensures Found(values, ordinal) == Walk(values, ordinal) <==>
            (ordinal < 0 ==> forall i :: 0 <= i < |values| ==> values[i].ordinal != ordinal)
  {
    if i :| 0 <= i < |values| && values[i].ordinal == ordinal {
      WalkFinds(values, ordinal, i);
    } else {
      WalkMisses(values, ordinal);
    }
  }

  /** A value declared with a negative ordinal is not found. */
  lemma NegativeIsMissed(name: string)
    ensures var values := [EnumValue(-1, name)];
      Sorted(values) && Walk(values, -1) == Some(values[0]) && Found(values, -1) == None
  {
  }
}
