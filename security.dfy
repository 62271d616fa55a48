/**
 * Decoding of an access point's security flags into one display label
 * (netman.py, get_list_of_access_points).
 */
module Security {
  import opened NmTypes

  // The intermediate one-hot security codes of the scanner.
  const NM_SECURITY_NONE: bv8 := 0x0
  const NM_SECURITY_WEP: bv8 := 0x1
  const NM_SECURITY_WPA: bv8 := 0x2
  const NM_SECURITY_WPA2: bv8 := 0x4
  const NM_SECURITY_ENTERPRISE: bv8 := 0x8

  /** The five labels a scanned access point can carry. */
  const SCAN_LABELS: set<string> := {"NONE", "WEP", "WPA", "WPA2", "ENTERPRISE"}

  /** Whether any bit of `mask` is set in `word`. */
  predicate HasAny(word: bv32, mask: bv32) {
    word & mask != 0
  }

  /**
   * Reference definition of the label: a precedence chain in which
   * 802.1X key management wins over RSN, RSN over WPA, WPA over
   * privacy, and privacy alone means WEP.
   */
  function SecurityLabel(flags: bv32, wpaFlags: bv32, rsnFlags: bv32): (name: string)
    ensures name in SCAN_LABELS
  {
    if HasAny(wpaFlags, NM_802_11_AP_SEC_KEY_MGMT_802_1X) || HasAny(rsnFlags, NM_802_11_AP_SEC_KEY_MGMT_802_1X) then "ENTERPRISE"
    else if rsnFlags != NM_802_11_AP_SEC_NONE then "WPA2"
    else if wpaFlags != NM_802_11_AP_SEC_NONE then "WPA"
    else if HasAny(flags, NM_802_11_AP_FLAGS_PRIVACY) then "WEP"
    else "NONE"
  }

  /**
   * The scanner's decoding as written: a one-hot code is overwritten by
   * each rule that applies, in source order, and the code is then mapped
   * to a string by a second chain of overwriting tests.
   */
  method DecodeSecurity(ap: AccessPoint) returns (securityStr: string)
    ensures securityStr == SecurityLabel(ap.flags, ap.wpaFlags, ap.rsnFlags)
    ensures securityStr in SCAN_LABELS
  {
    var security := NM_SECURITY_NONE;
    if HasAny(ap.flags, NM_802_11_AP_FLAGS_PRIVACY) && ap.wpaFlags == NM_802_11_AP_SEC_NONE && ap.rsnFlags == NM_802_11_AP_SEC_NONE {
      security := NM_SECURITY_WEP;
    }
    if ap.wpaFlags != NM_802_11_AP_SEC_NONE {
      security := NM_SECURITY_WPA;
    }
    if ap.rsnFlags != NM_802_11_AP_SEC_NONE {
      security := NM_SECURITY_WPA2;
    }
    if HasAny(ap.wpaFlags, NM_802_11_AP_SEC_KEY_MGMT_802_1X) || HasAny(ap.rsnFlags, NM_802_11_AP_SEC_KEY_MGMT_802_1X) {
      security := NM_SECURITY_ENTERPRISE;
    }

    securityStr := "";
    if security == NM_SECURITY_NONE {
      securityStr := "NONE";
    }
    if security & NM_SECURITY_WEP != 0 {
      securityStr := "WEP";
    }
    if security & NM_SECURITY_WPA != 0 {
      securityStr := "WPA";
    }
    if security & NM_SECURITY_WPA2 != 0 {
      securityStr := "WPA2";
    }
    if security & NM_SECURITY_ENTERPRISE != 0 {
      securityStr := "ENTERPRISE";
    }
  }

  /** 802.1X key management in either flag word decides the label, whatever else is set. */
  lemma EnterpriseWins(flags: bv32, wpaFlags: bv32, rsnFlags: bv32)
    ensures SecurityLabel(flags, wpaFlags, rsnFlags) == "ENTERPRISE"
        <==> HasAny(wpaFlags, NM_802_11_AP_SEC_KEY_MGMT_802_1X) || HasAny(rsnFlags, NM_802_11_AP_SEC_KEY_MGMT_802_1X)
  {
  }

  /** WEP is reported exactly for a privacy-only access point with empty WPA and RSN words. */
  lemma WepExactly(flags: bv32, wpaFlags: bv32, rsnFlags: bv32)
    ensures SecurityLabel(flags, wpaFlags, rsnFlags) == "WEP"
        <==> HasAny(flags, NM_802_11_AP_FLAGS_PRIVACY) && wpaFlags == NM_802_11_AP_SEC_NONE && rsnFlags == NM_802_11_AP_SEC_NONE
  {
  }

  /** NONE is reported exactly when no privacy bit and no WPA or RSN bit is set. */
  lemma NoneExactly(flags: bv32, wpaFlags: bv32, rsnFlags: bv32)
    ensures SecurityLabel(flags, wpaFlags, rsnFlags) == "NONE"
        <==> !HasAny(flags, NM_802_11_AP_FLAGS_PRIVACY) && wpaFlags == NM_802_11_AP_SEC_NONE && rsnFlags == NM_802_11_AP_SEC_NONE
  {
  }
}
