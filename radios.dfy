/** Reading the selected option out of a group of radio buttons. */
module Radios {
  import opened Wrappers

  /** One radio input: whether it is checked, and its `value` attribute. */
  datatype Radio = Radio(checked: bool, value: string)

  /** The value of the first checked radio, or `None` (JavaScript `null`) when none is. */
  function FirstChecked(nodes: seq<Radio>): Option<string>
  {
    if nodes == [] then None
    else if nodes[0].checked then Some(nodes[0].value)
    else FirstChecked(nodes[1..])
  }

  /** `FirstChecked` gives the value of the checked radio with the lowest index. */
  lemma {:induction false} FirstCheckedIsLowest(nodes: seq<Radio>, k: nat)
    requires k < |nodes| && nodes[k].checked
    requires forall j :: 0 <= j < k ==> !nodes[j].checked
    ensures FirstChecked(nodes) == Some(nodes[k].value)
  {
    if k > 0 {
      FirstCheckedIsLowest(nodes[1..], k - 1);
    }
  }

  /** `FirstChecked` is `None` exactly when no radio is checked. */
  lemma {:induction false} FirstCheckedNone(nodes: seq<Radio>)
    ensures FirstChecked(nodes) == None <==> forall j :: 0 <= j < |nodes| ==> !nodes[j].checked
  {
    if nodes != [] {
      FirstCheckedNone(nodes[1..]);
      assert forall j :: 1 <= j < |nodes| ==> nodes[j] == nodes[1..][j - 1];
    }
  }

  /** Once a checked radio is found, radios after it do not affect the result. */
  lemma {:induction false} FirstCheckedIgnoresLater(nodes: seq<Radio>, later: seq<Radio>)
    requires exists k :: 0 <= k < |nodes| && nodes[k].checked
    ensures FirstChecked(nodes + later) == FirstChecked(nodes)
  {
    if !nodes[0].checked {
      assert (nodes + later)[1..] == nodes[1..] + later;
      var k :| 0 <= k < |nodes| && nodes[k].checked;
      assert nodes[1..][k - 1].checked;
      FirstCheckedIgnoresLater(nodes[1..], later);
    }
  }

  /**
   * `getCheckedValueFromRadios`: walk the radios in order and stop at the
   * first checked one.
   */
  method GetCheckedValueFromRadios(nodes: seq<Radio>) returns (checkedValue: Option<string>)
    ensures checkedValue == None <==> forall j :: 0 <= j < |nodes| ==> !nodes[j].checked
    ensures checkedValue != None ==>
      exists k :: 0 <= k < |nodes| && nodes[k].checked && checkedValue == Some(nodes[k].value)
        && forall j :: 0 <= j < k ==> !nodes[j].checked
    ensures checkedValue == FirstChecked(nodes)
  {
    checkedValue := None;
    var i := 0;
    while i < |nodes|
      invariant 0 <= i <= |nodes|
      invariant checkedValue == None
      invariant forall j :: 0 <= j < i ==> !nodes[j].checked
    {
      if nodes[i].checked {
        checkedValue := Some(nodes[i].value);
        FirstCheckedIsLowest(nodes, i);
        break;
      }
      i := i + 1;
    }
    FirstCheckedNone(nodes);
  }
}
