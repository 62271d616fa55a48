/**
 * Building the list of selectable networks (netman.py,
 * get_list_of_access_points) and the name of the device's own hotspot
 * (get_hotspot_SSID).
 */
module Scan {
  import opened Wrappers
  import opened NmTypes
  import opened Security

  /** Prefix of every hotspot SSID of this family of devices. */
  const HOTSPOT_PREFIX := "PFC_EDU-"
  /** Device name used when the device-name environment variable is unset. */
  const DEFAULT_DEVICE_NAME := "aged-cheese"

  /** One entry of the scan list: an SSID with its security label. */
  datatype Entry = Entry(ssid: string, security: string)

  /** The sentinel offered last so that the user can type a hidden SSID. */
  const HIDDEN_ENTRY := Entry("Enter a hidden WiFi name", "HIDDEN")

  /** Python's `str.startswith`. */
  predicate StartsWith(s: string, prefix: string) {
    |prefix| <= |s| && s[..|prefix|] == prefix
  }

  /**
   * The hotspot SSID: the fixed prefix followed by the device name taken
   * from the environment, or by the default name when it is unset.
   */
  function HotspotSsid(deviceName: Option<string>): (ssid: string)
    ensures StartsWith(ssid, HOTSPOT_PREFIX)
    ensures ssid[|HOTSPOT_PREFIX|..] == if deviceName.Some? then deviceName.value else DEFAULT_DEVICE_NAME
  {
    HOTSPOT_PREFIX + (if deviceName.Some? then deviceName.value else DEFAULT_DEVICE_NAME)
  }

  /** The entry an access point produces. */
  function EntryOf(ap: AccessPoint): Entry {
    Entry(ap.ssid, SecurityLabel(ap.flags, ap.wpaFlags, ap.rsnFlags))
  }

  /** Access points of other hotspots of the family are never offered. */
  predicate Listable(ap: AccessPoint) {
    !StartsWith(ap.ssid, HOTSPOT_PREFIX)
  }

  /** The entries of the listable access points, in scan order. */
  function ApCandidates(aps: seq<AccessPoint>): seq<Entry> {
    if aps == [] then []
    else ApCandidates(aps[..|aps| - 1]) + (if Listable(aps[|aps| - 1]) then [EntryOf(aps[|aps| - 1])] else [])
  }

  /** The entries of a device: those of its access points if it is a WiFi device, else none. */
  function DeviceCandidates(dev: Device): seq<Entry> {
    if dev.deviceType == NM_DEVICE_TYPE_WIFI then ApCandidates(dev.accessPoints) else []
  }

  /** The entries of all devices, device by device, in scan order. */
  function Candidates(devices: seq<Device>): seq<Entry> {
    if devices == [] then []
    else Candidates(devices[..|devices| - 1]) + DeviceCandidates(devices[|devices| - 1])
  }

  /** `s` with every element after its first occurrence dropped. */
  function Dedup(s: seq<Entry>): seq<Entry> {
    if s == [] then []
    else
      var kept := Dedup(s[..|s| - 1]);
      if s[|s| - 1] in kept then kept else kept + [s[|s| - 1]]
  }

  /** Reference definition of the scan list. */
  function ScanResult(devices: seq<Device>, hiddenPlaceholder: bool): seq<Entry> {
    Dedup(Candidates(devices)) + (if hiddenPlaceholder then [HIDDEN_ENTRY] else [])
  }

  predicate NoDuplicates(s: seq<Entry>) {
    forall i, j :: 0 <= i < j < |s| ==> s[i] != s[j]
  }

  /** Index of the first occurrence of `x` in `s`. */
  function FirstIndex(s: seq<Entry>, x: Entry): (i: nat)
    requires x in s
    ensures i < |s| && s[i] == x
    ensures forall k :: 0 <= k < i ==> s[k] != x
  {
    if s[0] == x then 0 else 1 + FirstIndex(s[1..], x)
  }

  /** A visible access point of a WiFi device produces `e` and is not another hotspot. */
  ghost predicate Visible(devices: seq<Device>, e: Entry) {
    exists d, k :: 0 <= d < |devices| && 0 <= k < |devices[d].accessPoints|
      && devices[d].deviceType == NM_DEVICE_TYPE_WIFI
      && Listable(devices[d].accessPoints[k])
      && EntryOf(devices[d].accessPoints[k]) == e
  }

  // ---------------------------------------------------------------------
  // Properties of the reference definition

  lemma {:induction false} DedupNoDuplicates(s: seq<Entry>)
    ensures NoDuplicates(Dedup(s))
  {
    if s != [] {
      DedupNoDuplicates(s[..|s| - 1]);
    }
  }

  lemma {:induction false} DedupMember(s: seq<Entry>, x: Entry)
    ensures x in Dedup(s) <==> x in s
  {
    if s != [] {
      var init := s[..|s| - 1];
      DedupMember(init, x);
      assert s == init + [s[|s| - 1]];
    }
  }

  lemma {:induction false} FirstIndexAppend(s: seq<Entry>, y: Entry, x: Entry)
    requires x in s
    ensures FirstIndex(s + [y], x) == FirstIndex(s, x)
  {
    var i := FirstIndex(s, x);
    var j := FirstIndex(s + [y], x);
    assert (s + [y])[i] == x;
    assert j <= i;
    assert s[j] == (s + [y])[j];
  }

  /** Kept elements appear in the order of their first occurrence. */
  lemma {:induction false} DedupFirstSeenOrder(s: seq<Entry>, i: nat, j: nat)
    requires i < j < |Dedup(s)|
    ensures Dedup(s)[i] in s && Dedup(s)[j] in s
    ensures FirstIndex(s, Dedup(s)[i]) < FirstIndex(s, Dedup(s)[j])
  {
    var init, y := s[..|s| - 1], s[|s| - 1];
    assert s == init + [y];
    var kept := Dedup(init);
    assert Dedup(s) == if y in kept then kept else kept + [y];
    var a, b := Dedup(s)[i], Dedup(s)[j];
    assert a == kept[i];
    DedupMember(init, a);
    FirstIndexAppend(init, y, a);
    if j < |kept| {
      assert b == kept[j];
      DedupFirstSeenOrder(init, i, j);
      DedupMember(init, b);
      FirstIndexAppend(init, y, b);
    } else {
      DedupMember(init, y);
      assert b == y && y !in init;
      assert s[|init|] == y;
      assert FirstIndex(s, y) == |init|;
    }
  }

  lemma {:induction false} ApCandidatesListable(aps: seq<AccessPoint>)
    ensures forall e :: e in ApCandidates(aps) ==> !StartsWith(e.ssid, HOTSPOT_PREFIX)
  {
    if aps != [] {
      ApCandidatesListable(aps[..|aps| - 1]);
    }
  }

  lemma {:induction false} CandidatesListable(devices: seq<Device>)
    ensures forall e :: e in Candidates(devices) ==> !StartsWith(e.ssid, HOTSPOT_PREFIX)
  {
    if devices != [] {
      CandidatesListable(devices[..|devices| - 1]);
      ApCandidatesListable(devices[|devices| - 1].accessPoints);
    }
  }

  lemma {:induction false} ApCandidatesLabels(aps: seq<AccessPoint>)
    ensures forall e :: e in ApCandidates(aps) ==> e.security in SCAN_LABELS
  {
    if aps != [] {
      ApCandidatesLabels(aps[..|aps| - 1]);
    }
  }

  lemma {:induction false} CandidatesLabels(devices: seq<Device>)
    ensures forall e :: e in Candidates(devices) ==> e.security in SCAN_LABELS
  {
    if devices != [] {
      CandidatesLabels(devices[..|devices| - 1]);
      ApCandidatesLabels(devices[|devices| - 1].accessPoints);
    }
  }

  lemma {:induction false} ApCandidatesMembers(aps: seq<AccessPoint>, e: Entry)
    ensures e in ApCandidates(aps) <==> exists k :: 0 <= k < |aps| && Listable(aps[k]) && EntryOf(aps[k]) == e
  {
    if aps != [] {
      var init := aps[..|aps| - 1];
      ApCandidatesMembers(init, e);
      if e in ApCandidates(aps) && e !in ApCandidates(init) {
        assert Listable(aps[|aps| - 1]) && EntryOf(aps[|aps| - 1]) == e;
      }
      if exists k :: 0 <= k < |aps| && Listable(aps[k]) && EntryOf(aps[k]) == e {
        var k :| 0 <= k < |aps| && Listable(aps[k]) && EntryOf(aps[k]) == e;
        if k < |init| {
          assert init[k] == aps[k];
        }
      }
    }
  }

  /** An entry is a candidate exactly when some visible access point of a WiFi device produces it. */
  lemma {:induction false} CandidatesMembers(devices: seq<Device>, e: Entry)
    ensures e in Candidates(devices) <==> Visible(devices, e)
  {
    if devices != [] {
      var init, last := devices[..|devices| - 1], devices[|devices| - 1];
      CandidatesMembers(init, e);
      ApCandidatesMembers(last.accessPoints, e);
      if e in Candidates(devices) && e !in Candidates(init) {
        assert e in DeviceCandidates(last);
        var k :| 0 <= k < |last.accessPoints| && Listable(last.accessPoints[k]) && EntryOf(last.accessPoints[k]) == e;
        assert devices[|devices| - 1] == last;
      }
      if Visible(devices, e) {
        var d, k :| 0 <= d < |devices| && 0 <= k < |devices[d].accessPoints|
          && devices[d].deviceType == NM_DEVICE_TYPE_WIFI
          && Listable(devices[d].accessPoints[k])
          && EntryOf(devices[d].accessPoints[k]) == e;
        if d < |init| {
          assert init[d] == devices[d];
          assert Visible(init, e);
        }
      }
      if Visible(init, e) {
        var d, k :| 0 <= d < |init| && 0 <= k < |init[d].accessPoints|
          && init[d].deviceType == NM_DEVICE_TYPE_WIFI
          && Listable(init[d].accessPoints[k])
          && EntryOf(init[d].accessPoints[k]) == e;
        assert devices[d] == init[d];
      }
    }
  }

  // ---------------------------------------------------------------------
  // One step of each definition, as the scan loop takes it

  lemma DedupStep(seen: seq<Entry>, e: Entry)
    ensures Dedup(seen + [e]) == if e in Dedup(seen) then Dedup(seen) else Dedup(seen) + [e]
  {
    assert (seen + [e])[..|seen|] == seen;
  }

  lemma ApCandidatesStep(aps: seq<AccessPoint>, k: nat)
    requires k < |aps|
    ensures ApCandidates(aps[..k + 1]) == ApCandidates(aps[..k]) + if Listable(aps[k]) then [EntryOf(aps[k])] else []
  {
    assert aps[..k + 1][..k] == aps[..k];
  }

  lemma CandidatesStep(devices: seq<Device>, d: nat)
    requires d < |devices|
    ensures Candidates(devices[..d + 1]) == Candidates(devices[..d]) + DeviceCandidates(devices[d])
  {
    assert devices[..d + 1][..d] == devices[..d];
  }

  /** One access point of the inner scan loop: skip it or append its entry. */
  lemma ScanStep(before: seq<Entry>, aps: seq<AccessPoint>, k: nat, ssids: seq<Entry>)
    requires k < |aps|
    requires ssids == Dedup(before + ApCandidates(aps[..k]))
    ensures Dedup(before + ApCandidates(aps[..k + 1]))
      == if EntryOf(aps[k]) in ssids || !Listable(aps[k]) then ssids else ssids + [EntryOf(aps[k])]
  {
    ApCandidatesStep(aps, k);
    var seen := before + ApCandidates(aps[..k]);
    DedupStep(seen, EntryOf(aps[k]));
    if Listable(aps[k]) {
      assert before + ApCandidates(aps[..k + 1]) == seen + [EntryOf(aps[k])];
    } else {
      assert before + ApCandidates(aps[..k + 1]) == seen;
    }
  }

  // ---------------------------------------------------------------------
  // The scanner

  /**
   * The scan loop: every access point of every WiFi device is decoded,
   * and its entry is appended unless it is already listed or its SSID
   * has the hotspot prefix; the hidden-network sentinel is appended last
   * on request.
   */
  method GetListOfAccessPoints(devices: seq<Device>, hiddenPlaceholder: bool) returns (ssids: seq<Entry>)
    ensures ssids == ScanResult(devices, hiddenPlaceholder)
    ensures NoDuplicates(ssids)
    ensures forall e :: e in ssids ==> !StartsWith(e.ssid, HOTSPOT_PREFIX)
    ensures hiddenPlaceholder <==> |ssids| > 0 && ssids[|ssids| - 1] == HIDDEN_ENTRY
    ensures forall i :: 0 <= i < |ssids| && ssids[i].security == "HIDDEN" ==> hiddenPlaceholder && i == |ssids| - 1
    ensures forall i :: 0 <= i < |ssids| && (!hiddenPlaceholder || i < |ssids| - 1) ==> Visible(devices, ssids[i])
  {
    ssids := [];
    var d := 0;
    while d < |devices|
      invariant 0 <= d <= |devices|
      invariant ssids == Dedup(Candidates(devices[..d]))
    {
      var dev := devices[d];
      CandidatesStep(devices, d);
      if dev.deviceType != NM_DEVICE_TYPE_WIFI {
        assert Candidates(devices[..d]) + DeviceCandidates(dev) == Candidates(devices[..d]);
        d := d + 1;
        continue;
      }
      ghost var before := Candidates(devices[..d]);
      assert dev.accessPoints[..0] == [];
      assert before + ApCandidates(dev.accessPoints[..0]) == before;
      var k := 0;
      while k < |dev.accessPoints|
        invariant 0 <= k <= |dev.accessPoints|
        invariant ssids == Dedup(before + ApCandidates(dev.accessPoints[..k]))
      {
        var ap := dev.accessPoints[k];
        var security := DecodeSecurity(ap);
        var entry := Entry(ap.ssid, security);
        ScanStep(before, dev.accessPoints, k, ssids);
        if entry in ssids {
          k := k + 1;
          continue;
        }
        if StartsWith(ap.ssid, HOTSPOT_PREFIX) {
          k := k + 1;
          continue;
        }
        ssids := ssids + [entry];
        k := k + 1;
      }
      assert dev.accessPoints[..k] == dev.accessPoints;
      d := d + 1;
    }
    assert devices[..d] == devices;

    if hiddenPlaceholder {
      ssids := ssids + [HIDDEN_ENTRY];
    }
    ScanProperties(devices, hiddenPlaceholder);
  }

  /** The properties the scanner promises, proved of the reference definition. */
  lemma ScanProperties(devices: seq<Device>, hiddenPlaceholder: bool)
    ensures var r := ScanResult(devices, hiddenPlaceholder);
      && NoDuplicates(r)
      && (forall e :: e in r ==> !StartsWith(e.ssid, HOTSPOT_PREFIX))
      && (hiddenPlaceholder <==> |r| > 0 && r[|r| - 1] == HIDDEN_ENTRY)
      && (forall i :: 0 <= i < |r| && r[i].security == "HIDDEN" ==> hiddenPlaceholder && i == |r| - 1)
      && (forall i :: 0 <= i < |r| && (!hiddenPlaceholder || i < |r| - 1) ==> Visible(devices, r[i]))
  {
    var c := Candidates(devices);
    var kept := Dedup(c);
    var r := ScanResult(devices, hiddenPlaceholder);
    DedupNoDuplicates(c);
    CandidatesListable(devices);
    CandidatesLabels(devices);
    assert "HIDDEN" !in SCAN_LABELS;
    forall e | e in kept
      ensures e in c && e.security != "HIDDEN"
    {
      DedupMember(c, e);
    }
    assert HIDDEN_ENTRY.ssid[0] != HOTSPOT_PREFIX[0];
    assert !StartsWith(HIDDEN_ENTRY.ssid, HOTSPOT_PREFIX);
    forall i | 0 <= i < |kept|
      ensures Visible(devices, kept[i])
    {
      DedupMember(c, kept[i]);
      CandidatesMembers(devices, kept[i]);
    }
    if hiddenPlaceholder {
      assert r == kept + [HIDDEN_ENTRY];
      assert HIDDEN_ENTRY !in kept;
    } else {
      assert r == kept;
      if |r| > 0 {
        assert r[|r| - 1] in kept;
      }
    }
  }

  /**
   * Every visible access point of a WiFi device whose SSID lacks the
   * hotspot prefix is listed exactly once, before the sentinel.
   */
  lemma VisibleListedOnce(devices: seq<Device>, hiddenPlaceholder: bool, e: Entry)
    requires Visible(devices, e)
    ensures var kept := Dedup(Candidates(devices));
      e in kept && ScanResult(devices, hiddenPlaceholder)[FirstIndex(kept, e)] == e
      && forall i :: 0 <= i < |kept| && kept[i] == e ==> i == FirstIndex(kept, e)
  {
    var kept := Dedup(Candidates(devices));
    CandidatesMembers(devices, e);
    DedupMember(Candidates(devices), e);
    DedupNoDuplicates(Candidates(devices));
  }

  /** The device's own hotspot is never offered, whatever its device name. */
  lemma OwnHotspotNeverListed(devices: seq<Device>, hiddenPlaceholder: bool, deviceName: Option<string>)
    ensures forall e :: e in ScanResult(devices, hiddenPlaceholder) ==> e.ssid != HotspotSsid(deviceName)
  {
    ScanProperties(devices, hiddenPlaceholder);
  }

  /** A single WiFi device that sees one privacy-only access point. */
  lemma CafeNetScenario()
    ensures ScanResult([Device(NM_DEVICE_TYPE_WIFI, 0, [AccessPoint("CafeNet", NM_802_11_AP_FLAGS_PRIVACY, 0, 0)])], true)
      == [Entry("CafeNet", "WEP"), HIDDEN_ENTRY]
  {
    var ap := AccessPoint("CafeNet", NM_802_11_AP_FLAGS_PRIVACY, 0, 0);
    var devices := [Device(NM_DEVICE_TYPE_WIFI, 0, [ap])];
    var cafe := Entry("CafeNet", "WEP");
    assert Listable(ap);
    assert EntryOf(ap) == cafe;
    ApCandidatesStep([ap], 0);
    assert [ap][..1] == [ap] && [ap][..0] == [];
    CandidatesStep(devices, 0);
    assert devices[..1] == devices && devices[..0] == [];
    assert Candidates(devices) == [cafe];
    DedupStep([], cafe);
  }
}
