/**
 * The part of NetworkManager's D-Bus vocabulary that the connection helper
 * reads: access-point security flags, device types and device states, and
 * the in-memory stand-ins for access points, devices and stored connections.
 */
module NmTypes {

  /** NM80211ApFlags: the access point requires privacy (WEP or better). */
  const NM_802_11_AP_FLAGS_PRIVACY: bv32 := 0x1
  /** NM80211ApSecurityFlags: no security bit set. */
  const NM_802_11_AP_SEC_NONE: bv32 := 0x0
  /** NM80211ApSecurityFlags: 802.1X key management is supported. */
  const NM_802_11_AP_SEC_KEY_MGMT_802_1X: bv32 := 0x200

  /** NMDeviceType: an 802.11 WiFi device. */
  const NM_DEVICE_TYPE_WIFI: int := 2
  /** NMDeviceState: the device is active. */
  const NM_DEVICE_STATE_ACTIVATED: int := 100

  /** The `type` of a WiFi connection profile. */
  const WIRELESS_TYPE := "802-11-wireless"

  /** One visible access point with its SSID and its three flag words. */
  datatype AccessPoint = AccessPoint(ssid: string, flags: bv32, wpaFlags: bv32, rsnFlags: bv32)

  /**
   * A network device: its type, the state it reports when it is first
   * read, and the access points it currently sees.
   */
  datatype Device = Device(deviceType: int, state: int, accessPoints: seq<AccessPoint>)

  /** A connection stored by the manager, seen through its settings' `id` and `type`. */
  datatype StoredConnection = StoredConnection(id: string, connType: string)
}
