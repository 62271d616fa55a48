/**
 * The four connection profiles that `connect_to_AP` can submit, and the
 * choice among them by connection type (netman.py, connect_to_AP).
 */
module Profiles {
  import opened Wrappers
  import opened NmTypes

  // The supported values of `conn_type`.
  const CONN_TYPE_HOTSPOT := "hotspot"
  const CONN_TYPE_SEC_NONE := "NONE"
  const CONN_TYPE_SEC_PASSWORD := "PASSWORD"
  const CONN_TYPE_SEC_ENTERPRISE := "ENTERPRISE"

  const CONN_TYPES: set<string> := {CONN_TYPE_HOTSPOT, CONN_TYPE_SEC_NONE, CONN_TYPE_SEC_PASSWORD, CONN_TYPE_SEC_ENTERPRISE}

  /** Interface the hotspot is pinned to. */
  const HOTSPOT_INTERFACE := "wlan0"
  /** Static address and prefix length of the hotspot. */
  const HOTSPOT_ADDRESS := "192.168.42.1"
  const HOTSPOT_PREFIX_LENGTH := 24

  /** The `802-11-wireless` setting; `band` and `security` are absent in some shapes. */
  datatype Wireless = Wireless(mode: string, ssid: string, band: Option<string>, security: Option<string>)

  /**
   * The `802-11-wireless-security` setting, in its two shapes: a
   * pre-shared key (keys `key-mgmt`, `psk`) or EAP (keys `auth-alg`,
   * `key-mgmt`). A credential passed as Python `None` is kept as `None`.
   */
  datatype WirelessSecurity =
    | PskSecurity(keyMgmt: string, psk: Option<string>)
    | EapSecurity(authAlg: string, keyMgmt: string)

  /** The `802-1x` setting. */
  datatype Dot1x = Dot1x(eap: seq<string>, identity: Option<string>, password: Option<string>, phase2Auth: string)

  /** The `connection` setting; `autoconnect` and `interface-name` are absent in some shapes. */
  datatype ConnectionSetting = ConnectionSetting(
    id: string, connType: string, uuid: string, autoconnect: Option<bool>, interfaceName: Option<string>)

  /** One entry of `address-data`. */
  datatype AddressData = AddressData(address: string, prefix: int)
  /** One entry of the legacy `addresses` list: address, prefix length, gateway. */
  datatype LegacyAddress = LegacyAddress(address: string, prefix: int, gateway: string)

  /** The `ipv4` setting; the two address lists are present only for a manual method. */
  datatype Ipv4Setting = Ipv4Setting(ipMethod: string, addressData: Option<seq<AddressData>>, addresses: Option<seq<LegacyAddress>>)

  /** A whole connection profile as submitted to AddConnection. */
  datatype Profile = Profile(
    wireless: Wireless,
    wirelessSecurity: Option<WirelessSecurity>,
    dot1x: Option<Dot1x>,
    connection: ConnectionSetting,
    ipv4: Ipv4Setting,
    ipv6Method: string)

  /** Why no profile was chosen. */
  datatype ProfileError =
    | MissingArgument                   // conn_type or ssid is None
    | InvalidConnType(connType: string) // conn_type is none of the four

  const AUTO_IPV4 := Ipv4Setting("auto", None, None)

  function HotspotProfile(connName: string, ssid: string, uuid: string): Profile {
    Profile(
      Wireless("ap", ssid, Some("bg"), None),
      None,
      None,
      ConnectionSetting(connName, WIRELESS_TYPE, uuid, Some(false), Some(HOTSPOT_INTERFACE)),
      Ipv4Setting("manual",
        Some([AddressData(HOTSPOT_ADDRESS, HOTSPOT_PREFIX_LENGTH)]),
        Some([LegacyAddress(HOTSPOT_ADDRESS, HOTSPOT_PREFIX_LENGTH, "0.0.0.0")])),
      "auto")
  }

  function EnterpriseProfile(connName: string, ssid: string, username: Option<string>, password: Option<string>, uuid: string): Profile {
    Profile(
      Wireless("infrastructure", ssid, None, Some("802-11-wireless-security")),
      Some(EapSecurity("open", "wpa-eap")),
      Some(Dot1x(["peap"], username, password, "mschapv2")),
      ConnectionSetting(connName, WIRELESS_TYPE, uuid, None, None),
      AUTO_IPV4,
      "auto")
  }

  function OpenProfile(connName: string, ssid: string, uuid: string): Profile {
    Profile(
      Wireless("infrastructure", ssid, None, None),
      None,
      None,
      ConnectionSetting(connName, WIRELESS_TYPE, uuid, None, None),
      AUTO_IPV4,
      "auto")
  }

  function PasswordProfile(connName: string, ssid: string, password: Option<string>, uuid: string): Profile {
    Profile(
      Wireless("infrastructure", ssid, None, Some("802-11-wireless-security")),
      Some(PskSecurity("wpa-psk", password)),
      None,
      ConnectionSetting(connName, WIRELESS_TYPE, uuid, None, None),
      AUTO_IPV4,
      "auto")
  }

  /**
   * The argument checks and the choice of profile in `connect_to_AP`:
   * a missing connection type or SSID, or an unknown connection type,
   * yields an error and no profile.
   */
  function SelectProfile(connType: Option<string>, connName: string, ssid: Option<string>,
                         username: Option<string>, password: Option<string>, uuid: string): (r: Result<Profile, ProfileError>)
    ensures r.Failure? <==> connType.None? || ssid.None? || connType.value !in CONN_TYPES
    ensures r == Failure(MissingArgument) <==> connType.None? || ssid.None?
    ensures r.Success? ==>
      && r.value.connection.id == connName
      && r.value.connection.connType == WIRELESS_TYPE
      && r.value.connection.uuid == uuid
      && r.value.wireless.ssid == ssid.value
      && r.value.ipv6Method == "auto"
    ensures r.Success? && connType.value == CONN_TYPE_HOTSPOT ==>
      && r.value.wireless.mode == "ap"
      && r.value.wireless.band == Some("bg")
      && r.value.wirelessSecurity.None?
      && r.value.connection.autoconnect == Some(false)
      && r.value.connection.interfaceName == Some(HOTSPOT_INTERFACE)
      && r.value.ipv4.ipMethod == "manual"
      && r.value.ipv4.addressData == Some([AddressData(HOTSPOT_ADDRESS, HOTSPOT_PREFIX_LENGTH)])
    ensures r.Success? && connType.value != CONN_TYPE_HOTSPOT ==>
      && r.value.wireless.mode == "infrastructure"
      && r.value.ipv4 == AUTO_IPV4
      && r.value.connection.autoconnect.None?
      && r.value.connection.interfaceName.None?
    ensures r.Success? && connType.value == CONN_TYPE_SEC_NONE ==>
      r.value.wirelessSecurity.None? && r.value.dot1x.None? && r.value.wireless.security.None?
    ensures r.Success? && connType.value == CONN_TYPE_SEC_PASSWORD ==>
      && r.value.wirelessSecurity == Some(PskSecurity("wpa-psk", password))
      && r.value.dot1x.None?
    ensures r.Success? && connType.value == CONN_TYPE_SEC_ENTERPRISE ==>
      && r.value.wirelessSecurity.Some?
      && r.value.wirelessSecurity.value.keyMgmt == "wpa-eap"
      && r.value.dot1x == Some(Dot1x(["peap"], username, password, "mschapv2"))
  {
    if connType.None? || ssid.None? then Failure(MissingArgument)
    else if connType.value == CONN_TYPE_HOTSPOT then Success(HotspotProfile(connName, ssid.value, uuid))
    else if connType.value == CONN_TYPE_SEC_NONE then Success(OpenProfile(connName, ssid.value, uuid))
    else if connType.value == CONN_TYPE_SEC_PASSWORD then Success(PasswordProfile(connName, ssid.value, password, uuid))
    else if connType.value == CONN_TYPE_SEC_ENTERPRISE then Success(EnterpriseProfile(connName, ssid.value, username, password, uuid))
    else Failure(InvalidConnType(connType.value))
  }

  /**
   * Independent classification of a profile by its settings: the access
   * point mode marks the hotspot, an 802.1X section the enterprise
   * profile, a key-management section the password profile.
   */
  function KindOf(p: Profile): string {
    if p.wireless.mode == "ap" then CONN_TYPE_HOTSPOT
    else if p.dot1x.Some? then CONN_TYPE_SEC_ENTERPRISE
    else if p.wirelessSecurity.Some? then CONN_TYPE_SEC_PASSWORD
    else CONN_TYPE_SEC_NONE
  }

  /** The chosen profile has the shape its connection type asks for. */
  lemma SelectedShapeMatchesType(connType: Option<string>, connName: string, ssid: Option<string>,
                                 username: Option<string>, password: Option<string>, uuid: string)
    requires SelectProfile(connType, connName, ssid, username, password, uuid).Success?
    ensures KindOf(SelectProfile(connType, connName, ssid, username, password, uuid).value) == connType.value
  {
  }

  /** Two selections with the same arguments differ at most in the generated uuid. */
  lemma SelectionDeterministicUpToUuid(connType: Option<string>, connName: string, ssid: Option<string>,
                                       username: Option<string>, password: Option<string>, uuid1: string, uuid2: string)
    ensures var r1 := SelectProfile(connType, connName, ssid, username, password, uuid1);
            var r2 := SelectProfile(connType, connName, ssid, username, password, uuid2);
      && r1.Success? == r2.Success?
      && (r1.Failure? ==> r1 == r2)
      && (r1.Success? ==> r1.value.(connection := r1.value.connection.(uuid := uuid2)) == r2.value)
  {
  }

  /** The hotspot profile the device starts for its captive portal. */
  lemma HotspotScenario()
    ensures var r := SelectProfile(Some(CONN_TYPE_HOTSPOT), "hotspot", Some("PFC_EDU-mydevice"), None, None, "u");
      && r.Success?
      && r.value.wireless.mode == "ap"
      && r.value.wireless.ssid == "PFC_EDU-mydevice"
      && r.value.ipv4.addresses == Some([LegacyAddress("192.168.42.1", 24, "0.0.0.0")])
      && r.value.connection.autoconnect == Some(false)
  {
  }
}
