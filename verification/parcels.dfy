/**
 * `SavedState`, the snapshot the widget hands the host across a lifecycle
 * transition, and its parcel form. A parcel is a sequence of typed slots read
 * back in the order they were written; the host's own chained state is one
 * opaque slot ahead of the widget's three.
 */
module Parcels {
  import opened Numeric
  import opened Results

  /** The host framework's own snapshot, chained in front of the widget's. */
  datatype HostState = HostState(token: int)

  /** One value written to a parcel. */
  datatype Slot = IntSlot(i: Int32) | FloatSlot(f: real) | HostSlot(host: Option<HostState>)

  type Parcel = seq<Slot>

  /** Why a parcel could not be read back. */
  datatype ParcelError = Exhausted(pos: nat) | WrongSlot(pos: nat)

  /** The widget's snapshot: the host's state and the three fields that survive. */
  datatype SavedState = SavedState(superState: Option<HostState>, avatarMode: bool, borderWidth: real, borderColor: Int32)

  /** `SavedState(superState)`: the secondary constructor's field defaults. */
  function FromSuperState(superState: Option<HostState>): (ss: SavedState)
    ensures ss.superState == superState
    ensures ss.avatarMode && ss.borderWidth == 0.0 && ss.borderColor == 0
  {
    SavedState(superState, true, 0.0, 0)
  }

  /**
   * `writeToParcel`: the host's state (written by the base class), then
   * `avatarMode` as 1 or 0, `borderWidth` as a float and `borderColor` as an
   * int, appended to what the parcel already holds.
   */
  function WriteToParcel(ss: SavedState, p: Parcel): (q: Parcel)
    ensures |q| == |p| + 4 && q[..|p|] == p
    ensures q[|p|] == HostSlot(ss.superState)
    ensures q[|p| + 1].IntSlot? && (q[|p| + 1].i == 1 <==> ss.avatarMode) && (q[|p| + 1].i == 0 <==> !ss.avatarMode)
    ensures q[|p| + 2] == FloatSlot(ss.borderWidth)
    ensures q[|p| + 3] == IntSlot(ss.borderColor)
  {
    p + [HostSlot(ss.superState), IntSlot(if ss.avatarMode then 1 else 0), FloatSlot(ss.borderWidth), IntSlot(ss.borderColor)]
  }

  /** `readInt()` at `pos`, with the position after it. */
  function ReadInt(p: Parcel, pos: nat): (r: Result<(Int32, nat), ParcelError>)
    ensures r.Success? <==> pos < |p| && p[pos].IntSlot?
    ensures r.Success? ==> r.value == (p[pos].i, pos + 1)
  {
    if pos >= |p| then Failure(Exhausted(pos))
    else if !p[pos].IntSlot? then Failure(WrongSlot(pos))
    else Success((p[pos].i, pos + 1))
  }

  /** `readFloat()` at `pos`, with the position after it. */
  function ReadFloat(p: Parcel, pos: nat): (r: Result<(real, nat), ParcelError>)
    ensures r.Success? <==> pos < |p| && p[pos].FloatSlot?
    ensures r.Success? ==> r.value == (p[pos].f, pos + 1)
  {
    if pos >= |p| then Failure(Exhausted(pos))
    else if !p[pos].FloatSlot? then Failure(WrongSlot(pos))
    else Success((p[pos].f, pos + 1))
  }

  /** The base class reading back the host's state at `pos`. */
  function ReadHost(p: Parcel, pos: nat): (r: Result<(Option<HostState>, nat), ParcelError>)
    ensures r.Success? <==> pos < |p| && p[pos].HostSlot?
    ensures r.Success? ==> r.value == (p[pos].host, pos + 1)
  {
    if pos >= |p| then Failure(Exhausted(pos))
    else if !p[pos].HostSlot? then Failure(WrongSlot(pos))
    else Success((p[pos].host, pos + 1))
  }

  /**
   * `SavedState(parcel)`: the host's state, then `readInt() == 1` for
   * `avatarMode`, `readFloat()` for `borderWidth` and `readInt()` for
   * `borderColor`, in the order `writeToParcel` wrote them.
   */
  function FromParcel(p: Parcel, pos: nat): (r: Result<(SavedState, nat), ParcelError>)
    ensures r.Success? <==>
              pos + 4 <= |p| && p[pos].HostSlot? && p[pos + 1].IntSlot? && p[pos + 2].FloatSlot? && p[pos + 3].IntSlot?
    ensures r.Success? ==>
              && r.value.1 == pos + 4
              && r.value.0.superState == p[pos].host
              && (r.value.0.avatarMode <==> p[pos + 1].i == 1)
              && r.value.0.borderWidth == p[pos + 2].f
              && r.value.0.borderColor == p[pos + 3].i
  {
    var host :- ReadHost(p, pos);
    var mode :- ReadInt(p, host.1);
    var width :- ReadFloat(p, mode.1);
    var color :- ReadInt(p, width.1);
    Success((SavedState(host.0, mode.0 == 1, width.0, color.0), color.1))
  }

  /**
   * Reading back what `writeToParcel` appended, from where it started,
   * recovers the whole snapshot and stops right after it, whatever the
   * parcel held before.
   */
  lemma ParcelRoundTrip(ss: SavedState, p: Parcel)
    ensures FromParcel(WriteToParcel(ss, p), |p|) == Success((ss, |p| + 4))
  {
    var q := WriteToParcel(ss, p);
    var r := FromParcel(q, |p|);
    assert r.Success?;
    assert r.value.0.avatarMode == ss.avatarMode;
  }
}
