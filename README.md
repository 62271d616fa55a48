# python-wifi-connect: the NetworkManager helper, modelled in Dafny

This project models the logic in `python_wifi_connect/netman.py`, the module that
drives NetworkManager over D-Bus for a captive-portal WiFi setup. It has five pieces:

- **Security decoding** (`Security`). An access point's `Flags`, `WpaFlags` and `RsnFlags`
  words become one label: NONE, WEP, WPA, WPA2 or ENTERPRISE. The source does this by
  overwriting variables one after another. `DecodeSecurity` does the same, and is proved
  equal to the precedence chain `SecurityLabel`.
- **Scan list** (`Scan`). `GetListOfAccessPoints` is the nested device/access-point loop,
  with its `continue` skips.
  - It is proved equal to the reference definition `ScanResult`, which drops duplicates and
    keeps entries in first-seen order.
  - The listed properties are proved about that definition: no duplicates, no SSID with the
    `PFC_EDU-` prefix, and the HIDDEN sentinel last exactly when it was asked for.
  - `HotspotSsid` is `get_hotspot_SSID`, with the device name as a parameter.
- **Profile selection** (`Profiles`). This covers the argument checks and the four profile
  dictionaries of `connect_to_AP`, as one datatype. `SelectProfile` returns a `Result`.
- **Activation** (`Activation`). `FindDevice` is the `for ... else` device search.
  `WaitForActivation` is the polling loop, including its bound `loop_count > 30`.
- **Connection lifecycle** (`Registry`). The class `NetworkManager` is an in-memory stand-in
  for the manager. Its fields are:
  - `connections`: a `seq` of `(id, type)` records, modified in place;
  - `devices`;
  - `failing`: the set of control requests that raise;
  - `clock`: seconds slept;
  - `requests`: a log of add and activate requests.

  Its methods model `delete_all_wifi_connections`, `stop_connection`, `stop_hotspot`,
  `connect_to_AP` and `start_hotspot`. The dictionary built from the listed connections is
  `IdIndex`: when two connections share an id, the later one wins.

Environment and side effects become parameters or fields:

- Each `time.sleep` advances `clock`.
- The device name read from the environment is an `Option<string>` parameter.
- The generated uuid is a `string` parameter.
- The states a device reports while the helper waits are a sequence `updates`. `StateAt`
  gives the state seen after `t` seconds.
- An exception from a control request is modelled by naming that request in `failing`. The
  operation then returns `false`, as the blanket `except` in `connect_to_AP` does.

Two points where the code's behaviour differs from what its comments suggest; the model
follows the code:

- The comment at netman.py:330 says the loop waits 30 seconds at most. But `loop_count` is
  incremented before the test `loop_count > 30`, so the loop tests the state at seconds 0
  to 30 and sleeps up to 31 times. After a timeout, the final read at netman.py:333 happens
  at second 31. `WaitForActivation` and `NeverActiveTimesOut` state this.
- `stop_connection` catches every error and returns False (netman.py:63-72), as the
  `stop_hotspot` docstring promises (netman.py:55-56). `delete_all_wifi_connections`
  (netman.py:39-51) has no `try`, so its errors reach the caller. `DeleteAllWifiConnections`
  reports that case as `ok == false`, with the registry unchanged.

The default arguments of `stop_connection` and `connect_to_AP` (netman.py:60 and 180-184),
namely the name `python-wifi-connect` and `None` for the rest, are default parameters of
`StopConnection` and `ConnectToAp`.

## Model

| member | source | states |
|---|---|---|
| Security.SecurityLabel | python_wifi_connect/netman.py:97-139 | the label is always one of the five scan labels |
| Security.DecodeSecurity | python_wifi_connect/netman.py:97-139 | the two overwriting chains give exactly the precedence-chain label, which is one of the five labels |
| Security.EnterpriseWins | python_wifi_connect/netman.py:116-120 | ENTERPRISE exactly when the 802.1X bit is set in WpaFlags or RsnFlags, whatever the other bits are |
| Security.WepExactly | python_wifi_connect/netman.py:103-108 | WEP exactly when the privacy bit is set and both WPA and RSN words are zero |
| Security.NoneExactly | python_wifi_connect/netman.py:97-127 | NONE exactly when neither the privacy bit nor any WPA or RSN bit is set |
| Scan.HotspotSsid | python_wifi_connect/netman.py:160-162 | the SSID starts with `PFC_EDU-`, and the rest is the device name, or `aged-cheese` when the name is unset |
| Scan.GetListOfAccessPoints | python_wifi_connect/netman.py:86-157 | the loop returns the reference scan list. It has no duplicate entries and no entry with the hotspot prefix. The last entry is the HIDDEN sentinel exactly when the placeholder was requested, and HIDDEN appears nowhere else. Every other entry comes from an access point of a WiFi device |
| Scan.ScanProperties | python_wifi_connect/netman.py:141-154 | the same five properties, proved of the reference scan list for all inputs |
| Scan.DedupNoDuplicates | python_wifi_connect/netman.py:143-145 | dropping repeated entries leaves no two equal entries |
| Scan.DedupMember | python_wifi_connect/netman.py:143-151 | dropping repeats loses no entry and adds none |
| Scan.DedupFirstSeenOrder | python_wifi_connect/netman.py:143-151 | kept entries appear in the order of their first occurrence in the scan |
| Scan.CandidatesMembers | python_wifi_connect/netman.py:88-151 | an entry is produced exactly when some access point of a WiFi device, whose SSID lacks the prefix, decodes to it |
| Scan.CandidatesListable | python_wifi_connect/netman.py:147-149 | no produced entry has an SSID with the hotspot prefix |
| Scan.CandidatesLabels | python_wifi_connect/netman.py:124-139 | every produced entry carries one of the five scan labels, never HIDDEN |
| Scan.VisibleListedOnce | python_wifi_connect/netman.py:141-151 | every visible non-hotspot access point is listed, exactly once, before the sentinel |
| Scan.OwnHotspotNeverListed | python_wifi_connect/netman.py:148-149 | the device's own hotspot SSID is never in the scan list, whatever the device name |
| Scan.CafeNetScenario | python_wifi_connect/netman.py:77-157 | one WiFi device that sees a privacy-only `CafeNet` gives `[CafeNet/WEP, sentinel]` |
| Profiles.SelectProfile | python_wifi_connect/netman.py:190-289 | fails exactly on a missing type or SSID (MissingArgument) or an unknown type. Every profile has id = conn_name, type `802-11-wireless`, the given SSID and uuid, and IPv6 auto. Hotspot: mode ap, band bg, autoconnect off, interface wlan0, manual 192.168.42.1/24. Others: infrastructure with automatic IPv4. Open: no security section. Password: wpa-psk with the password. Enterprise: wpa-eap with peap, the username, the password and mschapv2 |
| Profiles.SelectedShapeMatchesType | python_wifi_connect/netman.py:269-285 | classifying the chosen profile by its settings alone gives back the requested connection type |
| Profiles.SelectionDeterministicUpToUuid | python_wifi_connect/netman.py:197-267 | two selections with the same arguments agree except for the uuid |
| Profiles.HotspotScenario | python_wifi_connect/netman.py:197-212 | the hotspot profile for `PFC_EDU-mydevice` is an access-point profile with the legacy address triple and autoconnect off |
| Activation.RequiredDeviceType | python_wifi_connect/netman.py:304-307 | a device fits a connection exactly when the connection is `802-11-wireless` and the device is a WiFi device. A connection of any other type fits no device |
| Activation.FirstFitFrom | python_wifi_connect/netman.py:310-317 | the result is the first device from the given index whose type fits, or none when no later device fits |
| Activation.FindDevice | python_wifi_connect/netman.py:310-317 | the loop finds the first fitting device, and finds none exactly when no device fits |
| Activation.FirstActiveFrom | python_wifi_connect/netman.py:325-331 | the first second from `t` at which the device is seen ACTIVATED, capped at 31. The device is not seen ACTIVATED before it |
| Activation.SleepsUntilActive | python_wifi_connect/netman.py:325-331 | at most 31 sleeps, none when the device is already active, and the device is not active before the last of them |
| Activation.WaitForActivation | python_wifi_connect/netman.py:323-335 | the loop sleeps exactly SleepsUntilActive times, and reports live exactly when the final state read is ACTIVATED |
| Activation.NeverActiveTimesOut | python_wifi_connect/netman.py:325-335 | a device not seen ACTIVATED at seconds 0 to 30 costs exactly 31 sleeps, and it is reported live exactly when the read at second 31 shows ACTIVATED |
| Activation.AlreadyActiveNoSleep | python_wifi_connect/netman.py:326-335 | a device already ACTIVATED costs no sleep and is reported live |
| Registry.IdIndex | python_wifi_connect/netman.py:65-68 | names in the dictionary are exactly the listed ids, and each maps to the last connection listed with that id |
| Registry.WithoutWifiMember | python_wifi_connect/netman.py:44-50 | a connection survives exactly when it was present and is not `802-11-wireless` |
| Registry.WithoutWifiKeepsOthers | python_wifi_connect/netman.py:44-50 | a registry without WiFi connections is left exactly as it is, order included |
| Registry.WithoutWifiIdempotent | python_wifi_connect/netman.py:39-51 | a second clean-slate reset changes nothing |
| Registry.NoWifiLeft | python_wifi_connect/netman.py:44-50 | after the reset no WiFi connection is left |
| Registry.NetworkManager.AddThenStop | python_wifi_connect/netman.py:60-74 | storing a profile and then stopping the connection under its id removes exactly what was stored, so the registry is back as it was. Stopping succeeds exactly when listing and deletion work |
| Registry.NetworkManager.AddConnection | python_wifi_connect/netman.py:293 | on success the profile's id and type are appended to the registry and the request is logged. On failure nothing changes |
| Registry.NetworkManager.Delete | python_wifi_connect/netman.py:50 | on success exactly the given connection is removed. On failure nothing changes |
| Registry.NetworkManager.ActivateConnection | python_wifi_connect/netman.py:320 | on success the activation request is logged and the registry is unchanged |
| Registry.NetworkManager.DeleteAllWifiConnections | python_wifi_connect/netman.py:39-51 | succeeds exactly when listing works and either deletion works or there is nothing to delete. On success the registry is exactly the old one without its WiFi connections, in order, and 2 seconds have passed. On failure nothing changes |
| Registry.NetworkManager.StopConnection | python_wifi_connect/netman.py:60-74 | succeeds exactly when listing and deletion work and some connection has the name. On success exactly the last connection with that name is removed and 2 seconds have passed. Otherwise nothing changes |
| Registry.NetworkManager.StopHotspot | python_wifi_connect/netman.py:54-57 | the same as StopConnection, for the name `hotspot` |
| Registry.NetworkManager.ConnectToAp | python_wifi_connect/netman.py:179-341 | a rejected argument set makes no add and no activate request. Otherwise the profile is added, then activated on the first WiFi device if every request works and such a device exists. The clock advances by the loop's sleeps. The result is true exactly when the device's final state is ACTIVATED. The registry grows only by the added connection |
| Registry.NetworkManager.StartHotspot | python_wifi_connect/netman.py:165-168 | the hotspot profile for `PFC_EDU-<device name>` is added under `hotspot`, then activated and waited for, with the same outcome rules as ConnectToAp |

## Left out

- `have_active_internet_connection` (netman.py:23-36) is a raw TCP probe, which is pure I/O.
- `get_active_access_point` (netman.py:344-363) only sets up the D-Bus main loop and reads a
  property of the first wireless device.
- The D-Bus transport is replaced by the in-memory `NetworkManager` class. `GetSettings` is
  reading a stored record's id and type.
- Logging, including the `conn_str` display name in `connect_to_AP`, is not modelled, because
  it does not affect any result.
- `time.sleep` is not real time. It only advances `clock`.
- The four `uuid.uuid4()` calls are reduced to one `uuid` parameter, because only the
  selected profile's uuid is ever used.
- The scan takes its device list as a parameter. `get_list_of_access_points` has no `try`, so
  a `GetDevices` failure there would propagate to the caller. This model does not represent
  that failure.
- A failing read of a device's `State` property inside the loop is not modelled.
- Registry.NetworkManager.ConnectToAp: a state read at the top of the loop and the read at
  line 333 are assumed to see the same value, because no sleep separates them.
- Registry.NetworkManager.ConnectToAp: the manager is assumed to list a newly added
  connection after every stored one, because `AddConnection` appends. The lookup at
  netman.py:297-301 keeps the last connection listed with the name, and NetworkManager
  promises no listing order. So if an older connection with the same name were listed after
  the new one, the source would activate that stale connection. The model, and the
  `Activated(|old(connections)|, ...)` clause of its contract, exclude that case.
- Concurrent changes to the registry by other processes are not modelled.
- Registry.NetworkManager.DeleteAllWifiConnections: `failing` is a fixed set, so either every
  deletion fails or none does. A failure that starts partway through the loop, leaving some
  WiFi connections deleted, is not modelled.
