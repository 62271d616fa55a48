/**
 * Choosing the device for a connection and waiting for it to become
 * active (netman.py, connect_to_AP).
 */
module Activation {
  import opened Wrappers
  import opened NmTypes

  /**
   * `loop_count` may exceed this bound once: the loop tests the state at
   * seconds 0..30 and sleeps at most 31 times, and the final read after
   * a timeout happens at second 31.
   */
  const MAX_WAIT_COUNT: nat := 30

  /**
   * The device type a connection of type `ctype` needs: a WiFi device
   * for a wireless connection. Any other type stays a string in the
   * source and equals no device's integer type, so no device fits.
   */
  function RequiredDeviceType(ctype: string): (dtype: Option<int>)
    ensures forall dev :: Fits(dev, dtype) <==> ctype == WIRELESS_TYPE && dev.deviceType == NM_DEVICE_TYPE_WIFI
  {
    if ctype == WIRELESS_TYPE then Some(NM_DEVICE_TYPE_WIFI) else None
  }

  /** Whether `dev` fits the required device type. */
  predicate Fits(dev: Device, dtype: Option<int>) {
    dtype == Some(dev.deviceType)
  }

  /** Reference definition: the first device from index `from` on that fits. */
  function FirstFitFrom(devices: seq<Device>, dtype: Option<int>, from: nat): (r: Option<nat>)
    requires from <= |devices|
    decreases |devices| - from
    ensures r.None? <==> forall i :: from <= i < |devices| ==> !Fits(devices[i], dtype)
    ensures r.Some? ==>
      && from <= r.value < |devices|
      && Fits(devices[r.value], dtype)
      && forall i :: from <= i < r.value ==> !Fits(devices[i], dtype)
  {
    if from == |devices| then None
    else if Fits(devices[from], dtype) then Some(from)
    else FirstFitFrom(devices, dtype, from + 1)
  }

  function FirstFit(devices: seq<Device>, dtype: Option<int>): Option<nat> {
    FirstFitFrom(devices, dtype, 0)
  }

  /** The `for ... else` search for the first device of the required type. */
  method FindDevice(devices: seq<Device>, dtype: Option<int>) returns (found: Option<nat>)
    ensures found == FirstFit(devices, dtype)
    ensures found.None? <==> forall i :: 0 <= i < |devices| ==> !Fits(devices[i], dtype)
    ensures found.Some? ==> found.value < |devices| && Fits(devices[found.value], dtype)
  {
    var i := 0;
    while i < |devices|
      invariant 0 <= i <= |devices|
      invariant FirstFitFrom(devices, dtype, i) == FirstFit(devices, dtype)
    {
      if Fits(devices[i], dtype) {
        return Some(i);
      }
      i := i + 1;
    }
    return None;
  }

  /**
   * The state the selected device reports after `t` seconds of waiting:
   * `initial` at first, then `updates[t - 1]`; once the updates run out,
   * the last one reported persists.
   */
  function StateAt(initial: int, updates: seq<int>, t: nat): int {
    if t == 0 || updates == [] then initial
    else if t <= |updates| then updates[t - 1]
    else updates[|updates| - 1]
  }

  /** The earliest second from `t` on at which the wait loop sees the device active, or 31. */
  function FirstActiveFrom(initial: int, updates: seq<int>, t: nat): (n: nat)
    requires t <= MAX_WAIT_COUNT + 1
    decreases MAX_WAIT_COUNT + 1 - t
    ensures t <= n <= MAX_WAIT_COUNT + 1
    ensures forall u :: t <= u < n ==> StateAt(initial, updates, u) != NM_DEVICE_STATE_ACTIVATED
    ensures n <= MAX_WAIT_COUNT ==> StateAt(initial, updates, n) == NM_DEVICE_STATE_ACTIVATED
  {
    if t > MAX_WAIT_COUNT then t
    else if StateAt(initial, updates, t) == NM_DEVICE_STATE_ACTIVATED then t
    else FirstActiveFrom(initial, updates, t + 1)
  }

  /**
   * The number of one-second sleeps the wait loop takes: none if the
   * device is already active, otherwise up to the first second at which
   * it is seen active, and never more than 31.
   */
  function SleepsUntilActive(initial: int, updates: seq<int>): (n: nat)
    ensures n <= MAX_WAIT_COUNT + 1
    ensures initial == NM_DEVICE_STATE_ACTIVATED ==> n == 0
    ensures forall u :: 0 <= u < n ==> StateAt(initial, updates, u) != NM_DEVICE_STATE_ACTIVATED
    ensures n <= MAX_WAIT_COUNT ==> StateAt(initial, updates, n) == NM_DEVICE_STATE_ACTIVATED
  {
    FirstActiveFrom(initial, updates, 0)
  }

  /**
   * The polling loop: sleep a second while the device is not active,
   * and stop once `loop_count` exceeds 30. The result is whether the
   * state read after the loop is ACTIVATED.
   */
  method WaitForActivation(initial: int, updates: seq<int>) returns (live: bool, sleeps: nat)
    ensures sleeps == SleepsUntilActive(initial, updates)
    ensures live <==> StateAt(initial, updates, sleeps) == NM_DEVICE_STATE_ACTIVATED
  {
    var loopCount := 0;
    while StateAt(initial, updates, loopCount) != NM_DEVICE_STATE_ACTIVATED
      invariant loopCount <= MAX_WAIT_COUNT
      invariant FirstActiveFrom(initial, updates, loopCount) == SleepsUntilActive(initial, updates)
      decreases MAX_WAIT_COUNT - loopCount
    {
      loopCount := loopCount + 1;  // one time.sleep(1)
      if loopCount > MAX_WAIT_COUNT {
        break;
      }
    }
    sleeps := loopCount;
    live := StateAt(initial, updates, loopCount) == NM_DEVICE_STATE_ACTIVATED;
  }

  /**
   * A device not seen ACTIVATED during the loop costs exactly 31 sleeps,
   * and the outcome is decided by the one read at second 31.
   */
  lemma NeverActiveTimesOut(initial: int, updates: seq<int>)
    requires forall t :: 0 <= t <= MAX_WAIT_COUNT ==> StateAt(initial, updates, t) != NM_DEVICE_STATE_ACTIVATED
    ensures SleepsUntilActive(initial, updates) == MAX_WAIT_COUNT + 1
    ensures StateAt(initial, updates, SleepsUntilActive(initial, updates)) == NM_DEVICE_STATE_ACTIVATED
        <==> StateAt(initial, updates, MAX_WAIT_COUNT + 1) == NM_DEVICE_STATE_ACTIVATED
  {
  }

  /** A device already active when activation is requested is reported live without sleeping. */
  lemma AlreadyActiveNoSleep(initial: int, updates: seq<int>)
    requires initial == NM_DEVICE_STATE_ACTIVATED
    ensures SleepsUntilActive(initial, updates) == 0
    ensures StateAt(initial, updates, 0) == NM_DEVICE_STATE_ACTIVATED
  {
  }
}
