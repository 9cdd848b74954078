/** The IF/ELSE/ENDIF stack: two integers that stand for a list of booleans. */
module Condition {
  import opened ScriptTypes

  const NO_FALSE: U32 := 0xFFFF_FFFF

  /** Position of the first false value, or NO_FALSE. */
  ghost function FirstFalse(values: seq<bool>): int {
    if values == [] then NO_FALSE
    else
      var rest := FirstFalse(values[..|values| - 1]);
      if rest != NO_FALSE then rest
      else if values[|values| - 1] then NO_FALSE
      else |values| - 1
  }

  predicate AllTrue(values: seq<bool>) {
    forall i :: 0 <= i < |values| ==> values[i]
  }

  function Toggle(values: seq<bool>): (r: seq<bool>)
    requires values != []
  {
    values[..|values| - 1] + [!values[|values| - 1]]
  }

  /** The compressed position says where the first false is and what lies below it. */
  lemma {:induction false} FirstFalseIs(values: seq<bool>)
    requires |values| <= NO_FALSE
    ensures FirstFalse(values) == NO_FALSE <==> AllTrue(values)
    ensures FirstFalse(values) != NO_FALSE ==>
              0 <= FirstFalse(values) < |values| && !values[FirstFalse(values)] &&
              AllTrue(values[..FirstFalse(values)])
  {
    if values != [] {
      var init := values[..|values| - 1];
      FirstFalseIs(init);
      assert values == init + [values[|values| - 1]];
      if FirstFalse(init) != NO_FALSE {
        assert values[..FirstFalse(init)] == init[..FirstFalse(init)];
        assert !values[FirstFalse(init)];
      } else if values[|values| - 1] {
        assert forall i :: 0 <= i < |values| ==> values[i] == (i < |init| ==> init[i]);
      } else {
        assert values[..|values| - 1] == init;
      }
    }
  }

  class ConditionStack {
    var stackSize: U32
    var firstFalsePos: U32
    ghost var values: seq<bool>

    ghost predicate Valid()
      reads this
    {
      && stackSize == |values|
      && firstFalsePos == FirstFalse(values)
    }

    constructor ()
      ensures Valid() && values == []
    {
      stackSize := 0;
      firstFalsePos := NO_FALSE;
      values := [];
    }

    method IsEmpty() returns (r: bool)
      requires Valid()
      ensures r <==> values == []
    {
      r := stackSize == 0;
    }

    method AllTrueNow() returns (r: bool)
      requires Valid()
      ensures r <==> AllTrue(values)
    {
      FirstFalseIs(values);
      r := firstFalsePos == NO_FALSE;
    }

    method PushBack(value: bool)
      requires Valid() && |values| < NO_FALSE
      modifies this
      ensures Valid() && values == old(values) + [value]
    {
      if firstFalsePos == NO_FALSE && !value {
        firstFalsePos := stackSize;
      }
      stackSize := stackSize + 1;
      values := values + [value];
      assert values[..|values| - 1] == old(values);
    }

    method PopBack()
      requires Valid() && values != []
      modifies this
      ensures Valid() && values == old(values)[..|old(values)| - 1]
    {
      FirstFalseIs(values[..|values| - 1]);
      stackSize := stackSize - 1;
      if firstFalsePos == stackSize {
        firstFalsePos := NO_FALSE;
      }
      values := values[..|values| - 1];
    }

    method ToggleTop()
      requires Valid() && values != []
      modifies this
      ensures Valid() && values == Toggle(old(values))
    {
      FirstFalseIs(values);
      FirstFalseIs(values[..|values| - 1]);
      if firstFalsePos == NO_FALSE {
        firstFalsePos := stackSize - 1;
      } else if firstFalsePos == stackSize - 1 {
        firstFalsePos := NO_FALSE;
      }
      values := Toggle(values);
      assert values[..|values| - 1] == old(values)[..|old(values)| - 1];
    }
  }
}
