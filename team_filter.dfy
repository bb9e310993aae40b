/** Deselect-on-reclick for the team filter (src/scripts/about/team-filter.js):
    the filter buttons of the team grid remember the last one clicked;
    clicking that same button again unchecks every radio button among them
    and forgets it. */
module TeamFilter {
  import opened Common

  /** A filter button: whether its `type` is "radio", and its `checked`. */
  datatype FilterButton = FilterButton(isRadio: bool, checked: bool)

  /** `currentlySelected` after a click on button `k`. */
  function NextSelected(current: Option<nat>, k: nat): Option<nat> {
    if current == Some(k) then None else Some(k)
  }

  /** The buttons after the reclick: every radio unchecked, every other
      button untouched. */
  function Unchecked(bs: seq<FilterButton>): (r: seq<FilterButton>)
    ensures |r| == |bs|
    ensures forall i :: 0 <= i < |bs| ==> r[i].isRadio == bs[i].isRadio
    ensures forall i :: 0 <= i < |bs| ==> (if bs[i].isRadio then !r[i].checked else r[i] == bs[i])
  {
    seq(|bs|, i requires 0 <= i < |bs| => if bs[i].isRadio then bs[i].(checked := false) else bs[i])
  }

  /** Unchecking twice is unchecking once. */
  lemma UncheckedIdempotent(bs: seq<FilterButton>)
    ensures Unchecked(Unchecked(bs)) == Unchecked(bs)
  {
  }

  /** Two clicks in a row on a button that was not remembered forget it
      again, and a third remembers it; a click on another button just
      switches to it. */
  lemma ClickCycle(current: Option<nat>, k: nat, other: nat)
    requires current != Some(k) && other != k
    ensures NextSelected(current, k) == Some(k)
    ensures NextSelected(NextSelected(current, k), k) == None
    ensures NextSelected(NextSelected(NextSelected(current, k), k), k) == Some(k)
    ensures NextSelected(NextSelected(current, k), other) == Some(other)
  {
  }

  /** The filter grid, when the page has one, and its buttons. */
  class TeamFilterGrid {
    const present: bool
    const buttons: array<FilterButton>
    /** Whether `deselectFilterRadio` found the grid and attached the click
        handlers. */
    var wired: bool
    var currentlySelected: Option<nat>

    constructor(gridPresent: bool, initial: seq<FilterButton>)
      ensures present == gridPresent && buttons[..] == initial && fresh(buttons)
      ensures !wired && currentlySelected == None
    {
      present := gridPresent;
      buttons := new FilterButton[|initial|](i requires 0 <= i < |initial| => initial[i]);
      wired := false;
      currentlySelected := None;
    }

    /** `deselectFilterRadio()`: nothing happens without the grid. */
    method DeselectFilterRadio()
      requires !wired
      modifies this
      ensures wired == present && (present ==> currentlySelected == None)
      ensures !present ==> currentlySelected == old(currentlySelected)
      ensures buttons[..] == old(buttons[..])
    {
      if !present {
        return;
      }
      currentlySelected := None;
      wired := true;
    }

    /** The click handler of button `k`. */
    method Click(k: nat)
      requires k < buttons.Length
      modifies this, buttons
      ensures !wired ==> currentlySelected == old(currentlySelected) && buttons[..] == old(buttons[..])
      ensures wired ==> currentlySelected == NextSelected(old(currentlySelected), k)
      ensures wired && old(currentlySelected) == Some(k) ==> buttons[..] == Unchecked(old(buttons[..]))
      ensures wired && old(currentlySelected) != Some(k) ==> buttons[..] == old(buttons[..])
      ensures wired == old(wired)
    {
      if !wired {
        return;
      }
      if currentlySelected == Some(k) {
        var i := 0;
        while i < buttons.Length
          invariant 0 <= i <= buttons.Length
          invariant forall j :: 0 <= j < i ==> buttons[j] == Unchecked(old(buttons[..]))[j]
          invariant forall j :: i <= j < buttons.Length ==> buttons[j] == old(buttons[j])
          invariant wired == old(wired) && currentlySelected == old(currentlySelected)
        {
          if buttons[i].isRadio {
            buttons[i] := buttons[i].(checked := false);
          }
          i := i + 1;
        }
        currentlySelected := None;
      } else {
        currentlySelected := Some(k);
      }
    }
  }
}
