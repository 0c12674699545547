/** The joint picker of the exercise editor: which joint names are
    selected, and which ball-and-socket joint has its axis popover open.
    Simple joints are toggled directly; a complex joint only opens or closes
    its popover, where each movement axis is toggled as `<joint>_<axis>`. */
module JointSelector {
  import opened Common
  import opened Text
  import opened Seqs

  /** `SIMPLE_JOINTS` */
  const SimpleJoints: seq<string> := [
    "LEFT_ELBOW", "RIGHT_ELBOW",
    "LEFT_KNEE", "RIGHT_KNEE",
    "LEFT_ANKLE", "RIGHT_ANKLE",
    "LEFT_WRIST", "RIGHT_WRIST",
    "CHIN"
  ]

  /** The keys of `COMPLEX_JOINTS`. */
  const ComplexJoints: seq<string> := ["LEFT_SHOULDER", "RIGHT_SHOULDER", "LEFT_HIP", "RIGHT_HIP"]

  /** The ids of `AXES`. */
  const Axes: seq<string> := ["FLEX_EXT", "AB_AD", "ROT"]

  /** No joint is both simple and complex. */
  lemma TablesDisjoint()
    ensures forall i, j | 0 <= i < |SimpleJoints| && 0 <= j < |ComplexJoints| :: SimpleJoints[i] != ComplexJoints[j]
  {
  }

  /** The selection (the `selectedJoints` prop, replaced through `onChange`)
      and the open popover. */
  datatype Picker = Picker(selected: seq<string>, active: Option<string>)

  /** Removes every occurrence of a selected name, or appends an unselected
      one. */
  function ToggleEntry(sel: seq<string>, name: string): (r: seq<string>)
    // the toggled name flips membership
    ensures name in r <==> name !in sel
    // an unselected name goes to the end
    ensures name !in sel ==> r == sel + [name]
    // every other name keeps its count
    ensures forall x | x != name :: multiset(r)[x] == multiset(sel)[x]
  {
    if name in sel then
      FilterMembers(sel, (j: string) => j != name, name);
      Filter(sel, (j: string) => j != name)
    else
      assert forall x | x != name :: multiset(sel + [name])[x] == multiset(sel)[x];
      sel + [name]
  }

  /** Removing a name keeps the remaining names in their order. */
  lemma ToggleEntryKeepsOrder(sel: seq<string>, name: string)
    requires name in sel
    ensures IsSubseq(ToggleEntry(sel, name), sel)
  {
    FilterIsSubseq(sel, (j: string) => j != name);
  }

  /** Selecting a name and deselecting it again gives back the same list. */
  lemma ToggleEntryTwice(sel: seq<string>, name: string)
    requires name !in sel
    ensures ToggleEntry(ToggleEntry(sel, name), name) == sel
  {
    var p := (j: string) => j != name;
    FilterAppend(sel, name, p);
    FilterAll(sel, p);
  }

  /** `toggleJoint` */
  function ToggleJoint(s: Picker, joint: string): (r: Picker)
    // a complex joint leaves the selection alone and flips its popover
    ensures joint in ComplexJoints ==> r.selected == s.selected
    ensures joint in ComplexJoints ==> r.active == if s.active == Some(joint) then None else Some(joint)
    // a simple joint is toggled and the popover stays as it was
    ensures joint !in ComplexJoints ==> r.active == s.active && r.selected == ToggleEntry(s.selected, joint)
  {
    if joint in ComplexJoints then
      Picker(s.selected, if s.active == Some(joint) then None else Some(joint))
    else
      Picker(ToggleEntry(s.selected, joint), s.active)
  }

  /** Clicking any joint twice restores the picker, provided a simple joint
      was not selected to begin with. */
  lemma ToggleJointTwice(s: Picker, joint: string)
    requires joint in ComplexJoints ==> s.active.None? || s.active == Some(joint)
    requires joint !in ComplexJoints ==> joint !in s.selected
    ensures ToggleJoint(ToggleJoint(s, joint), joint) == s
  {
    if joint !in ComplexJoints {
      ToggleEntryTwice(s.selected, joint);
    }
  }

  /** `${jointBase}_${axisSuffix}` */
  function AxisName(joint: string, axis: string): string {
    joint + "_" + axis
  }

  /** `toggleAxis`: the plain toggle applied to the axis name. */
  function ToggleAxis(sel: seq<string>, joint: string, axis: string): (r: seq<string>)
    ensures AxisName(joint, axis) in r <==> AxisName(joint, axis) !in sel
    ensures forall x | x != AxisName(joint, axis) :: multiset(r)[x] == multiset(sel)[x]
  {
    ToggleEntry(sel, AxisName(joint, axis))
  }

  /** `isSelected`: listed by name, or, for a complex joint, some selected
      entry names one of its axes. */
  predicate IsSelected(sel: seq<string>, joint: string) {
    joint in sel ||
    (joint in ComplexJoints && exists k | 0 <= k < |sel| :: StartsWith(sel[k], joint + "_"))
  }

  /** A simple joint counts as selected exactly when it is listed. */
  lemma SimpleSelectedIffListed(sel: seq<string>, joint: string)
    requires joint !in ComplexJoints
    ensures IsSelected(sel, joint) <==> joint in sel
  {
  }

  /** After switching on an axis of a complex joint, the joint counts as
      selected. */
  lemma AxisSelectsJoint(sel: seq<string>, joint: string, axis: string)
    requires joint in ComplexJoints && AxisName(joint, axis) !in sel
    ensures IsSelected(ToggleAxis(sel, joint, axis), joint)
  {
    var r := ToggleAxis(sel, joint, axis);
    assert r == sel + [AxisName(joint, axis)];
    var k := |r| - 1;
    assert r[k] == joint + "_" + axis;
    assert StartsWith(r[k], joint + "_");
  }

  /** When no other entry names an axis of the joint, switching an axis on
      and off again leaves the joint unselected. */
  lemma AxisOffDeselects(sel: seq<string>, joint: string, axis: string)
    requires joint in ComplexJoints && joint !in sel
    requires forall k | 0 <= k < |sel| :: !StartsWith(sel[k], joint + "_")
    ensures !IsSelected(ToggleAxis(ToggleAxis(sel, joint, axis), joint, axis), joint)
  {
    assert AxisName(joint, axis) !in sel;
    ToggleEntryTwice(sel, AxisName(joint, axis));
  }
}
