/**
 * The connection manager as this helper sees it, and the operations on
 * its registry of connections (netman.py: delete_all_wifi_connections,
 * stop_hotspot, stop_connection, start_hotspot, connect_to_AP).
 */
module Registry {
  import opened Wrappers
  import opened NmTypes
  import opened Scan
  import opened Profiles
  import opened Activation

  /** Connection name of the hotspot. */
  const HOTSPOT_CONNECTION_NAME := "hotspot"
  /** Default connection name for connections made by this helper. */
  const GENERIC_CONNECTION_NAME := "python-wifi-connect"
  /** Seconds slept after deletions to let the manager settle. */
  const SETTLE_SECONDS: nat := 2

  /**
   * The dictionary `{settings id: connection}` built from the listed
   * connections; a later connection with the same id replaces an earlier
   * one. Values are indices into the list.
   */
  function IdIndex(conns: seq<StoredConnection>): (m: map<string, nat>)
    ensures forall name :: name in m <==> exists i :: 0 <= i < |conns| && conns[i].id == name
    ensures forall name :: name in m ==>
      && m[name] < |conns|
      && conns[m[name]].id == name
      && forall j :: m[name] < j < |conns| ==> conns[j].id != name
  {
    if conns == [] then map[]
    else
      var init := conns[..|conns| - 1];
      var m0 := IdIndex(init);
      assert forall i :: 0 <= i < |init| ==> init[i] == conns[i];
      m0[conns[|conns| - 1].id := |conns| - 1]
  }

  /** The registry with every `802-11-wireless` connection removed, the others kept in order. */
  function WithoutWifi(conns: seq<StoredConnection>): (r: seq<StoredConnection>)
    ensures |r| <= |conns|
  {
    if conns == [] then []
    else
      var last := conns[|conns| - 1];
      WithoutWifi(conns[..|conns| - 1]) + (if last.connType == WIRELESS_TYPE then [] else [last])
  }

  /** The only connections removed are WiFi ones, and every other connection stays. */
  lemma {:induction false} WithoutWifiMember(conns: seq<StoredConnection>, c: StoredConnection)
    ensures c in WithoutWifi(conns) <==> c in conns && c.connType != WIRELESS_TYPE
  {
    if conns != [] {
      var init := conns[..|conns| - 1];
      WithoutWifiMember(init, c);
      assert conns == init + [conns[|conns| - 1]];
    }
  }

  /** Removing the WiFi connections again changes nothing. */
  lemma {:induction false} WithoutWifiIdempotent(conns: seq<StoredConnection>)
    ensures WithoutWifi(WithoutWifi(conns)) == WithoutWifi(conns)
  {
    if conns != [] {
      var init, last := conns[..|conns| - 1], conns[|conns| - 1];
      var r0 := WithoutWifi(init);
      WithoutWifiIdempotent(init);
      if last.connType != WIRELESS_TYPE {
        assert WithoutWifi(conns) == r0 + [last];
        WithoutWifiAppend(r0, last);
      } else {
        assert WithoutWifi(conns) == r0;
      }
    }
  }

  lemma WithoutWifiAppend(conns: seq<StoredConnection>, c: StoredConnection)
    ensures WithoutWifi(conns + [c]) == WithoutWifi(conns) + if c.connType == WIRELESS_TYPE then [] else [c]
  {
    assert (conns + [c])[..|conns|] == conns;
  }

  /** Removing the first element of `rest` from `kept + rest`. */
  lemma RemoveAfter(kept: seq<StoredConnection>, rest: seq<StoredConnection>)
    requires rest != []
    ensures (kept + rest)[..|kept|] + (kept + rest)[|kept| + 1..] == kept + rest[1..]
  {
    assert (kept + rest)[..|kept|] == kept;
    assert (kept + rest)[|kept| + 1..] == rest[1..];
  }

  lemma WithoutWifiStep(conns: seq<StoredConnection>, i: nat)
    requires i < |conns|
    ensures WithoutWifi(conns[..i + 1])
      == WithoutWifi(conns[..i]) + if conns[i].connType == WIRELESS_TYPE then [] else [conns[i]]
  {
    assert conns[..i + 1][..i] == conns[..i];
  }

  /** One iteration of the deletion loop, on the listed connections `conns`. */
  lemma DeleteAllStep(conns: seq<StoredConnection>, i: nat, kept: seq<StoredConnection>)
    requires i < |conns| && kept == WithoutWifi(conns[..i])
    ensures HasWifi(conns[..i + 1]) <==> HasWifi(conns[..i]) || conns[i].connType == WIRELESS_TYPE
    ensures conns[i].connType == WIRELESS_TYPE ==>
      && WithoutWifi(conns[..i + 1]) == kept
      && (kept + conns[i..])[..|kept|] + (kept + conns[i..])[|kept| + 1..] == kept + conns[i + 1..]
    ensures conns[i].connType != WIRELESS_TYPE ==>
      && WithoutWifi(conns[..i + 1]) == kept + [conns[i]]
      && kept + conns[i..] == (kept + [conns[i]]) + conns[i + 1..]
  {
    WithoutWifiStep(conns, i);
    HasWifiStep(conns, i);
    assert conns[i..] == [conns[i]] + conns[i + 1..];
    RemoveAfter(kept, conns[i..]);
  }

  /**
   * The first WiFi connection of the listing is reached with nothing
   * deleted yet: the registry still holds the whole listing.
   */
  lemma DeleteAllFault(conns: seq<StoredConnection>, i: nat, kept: seq<StoredConnection>)
    requires i < |conns| && kept == WithoutWifi(conns[..i])
    requires !HasWifi(conns[..i]) && conns[i].connType == WIRELESS_TYPE
    ensures kept + conns[i..] == conns
    ensures HasWifi(conns)
  {
    WithoutWifiKeepsOthers(conns[..i]);
    assert conns[..i] + conns[i..] == conns;
  }

  /** A registry without WiFi connections is left exactly as it is. */
  lemma {:induction false} WithoutWifiKeepsOthers(conns: seq<StoredConnection>)
    requires !HasWifi(conns)
    ensures WithoutWifi(conns) == conns
  {
    if conns != [] {
      var init := conns[..|conns| - 1];
      WithoutWifiKeepsOthers(init);
      assert conns[|conns| - 1].connType != WIRELESS_TYPE;
      assert init + [conns[|conns| - 1]] == conns;
    }
  }

  /** Whether the registry holds a WiFi connection. */
  predicate HasWifi(conns: seq<StoredConnection>) {
    exists i :: 0 <= i < |conns| && conns[i].connType == WIRELESS_TYPE
  }

  /** No WiFi connection survives the removal. */
  lemma NoWifiLeft(conns: seq<StoredConnection>)
    ensures !HasWifi(WithoutWifi(conns))
  {
  }

  /**
   * A connection just stored under `name` is the last one listed with
   * that id, so the lookup finds it and deleting it restores the
   * registry as it was before.
   */
  lemma StopFindsLastAdded(conns: seq<StoredConnection>, added: StoredConnection, k: nat)
    requires var c := conns + [added];
      && k < |c| && c[k].id == added.id
      && forall j :: k < j < |c| ==> c[j].id != added.id
    ensures k == |conns|
    ensures (conns + [added])[..k] + (conns + [added])[k + 1..] == conns
  {
    var c := conns + [added];
    assert c[|conns|] == added;
    assert c[..k] == conns;
  }

  lemma HasWifiStep(conns: seq<StoredConnection>, i: nat)
    requires i < |conns|
    ensures HasWifi(conns[..i + 1]) <==> HasWifi(conns[..i]) || conns[i].connType == WIRELESS_TYPE
  {
    assert conns[..i + 1][i] == conns[i];
    if HasWifi(conns[..i]) {
      var k :| 0 <= k < i && conns[..i][k].connType == WIRELESS_TYPE;
      assert conns[..i + 1][k] == conns[..i][k];
    }
    if HasWifi(conns[..i + 1]) {
      var k :| 0 <= k < i + 1 && conns[..i + 1][k].connType == WIRELESS_TYPE;
      if k < i {
        assert conns[..i][k] == conns[..i + 1][k];
      }
    }
  }

  /** The control-interface requests that raise an exception in this manager. */
  datatype Call = AddConnectionCall | ListConnectionsCall | GetDevicesCall | ActivateConnectionCall | DeleteCall

  /** Requests that change the manager, other than deletions (visible in the registry). */
  datatype Request =
    | Added(profile: Profile)
    | Activated(connection: nat, device: nat)

  /**
   * An in-memory NetworkManager: the stored connections, the devices, the
   * requests that will fail, the seconds slept by the helper, and the log
   * of add and activate requests it received.
   */
  class NetworkManager {
    var connections: seq<StoredConnection>
    const devices: seq<Device>
    const failing: set<Call>
    var clock: nat
    var requests: seq<Request>

    constructor (connections: seq<StoredConnection>, devices: seq<Device>, failing: set<Call>)
      ensures this.connections == connections && this.devices == devices && this.failing == failing
      ensures clock == 0 && requests == []
    {
      this.connections := connections;
      this.devices := devices;
      this.failing := failing;
      clock := 0;
      requests := [];
    }

    /** AddConnection: store the profile's id and type at the end of the registry. */
    method AddConnection(p: Profile) returns (ok: bool)
      modifies this
      ensures ok == (AddConnectionCall !in failing)
      ensures connections == if ok then old(connections) + [StoredConnection(p.connection.id, p.connection.connType)] else old(connections)
      ensures requests == if ok then old(requests) + [Added(p)] else old(requests)
      ensures clock == old(clock)
    {
      ok := AddConnectionCall !in failing;
      if ok {
        connections := connections + [StoredConnection(p.connection.id, p.connection.connType)];
        requests := requests + [Added(p)];
      }
    }

    /** Delete on one listed connection. */
    method Delete(k: nat) returns (ok: bool)
      requires k < |connections|
      modifies this
      ensures ok == (DeleteCall !in failing)
      ensures connections == if ok then old(connections)[..k] + old(connections)[k + 1..] else old(connections)
      ensures requests == old(requests) && clock == old(clock)
    {
      ok := DeleteCall !in failing;
      if ok {
        connections := connections[..k] + connections[k + 1..];
      }
    }

    /** ActivateConnection of a stored connection on a device. */
    method ActivateConnection(conn: nat, dev: nat) returns (ok: bool)
      modifies this
      ensures ok == (ActivateConnectionCall !in failing)
      ensures requests == if ok then old(requests) + [Activated(conn, dev)] else old(requests)
      ensures connections == old(connections) && clock == old(clock)
    {
      ok := ActivateConnectionCall !in failing;
      if ok {
        requests := requests + [Activated(conn, dev)];
      }
    }

    /**
     * delete_all_wifi_connections: delete every listed `802-11-wireless`
     * connection, then sleep for the settle delay. The source does not
     * catch errors: `ok` is false when a request raised, and then the
     * registry is as it was.
     */
    method DeleteAllWifiConnections() returns (ok: bool)
      modifies this
      ensures ok == (ListConnectionsCall !in failing && (DeleteCall !in failing || !HasWifi(old(connections))))
      ensures connections == if ok then WithoutWifi(old(connections)) else old(connections)
      ensures clock == if ok then old(clock) + SETTLE_SECONDS else old(clock)
      ensures requests == old(requests)
    {
      if ListConnectionsCall in failing {
        return false;
      }
      var listed := connections;
      var i, j := 0, 0;
      ghost var kept: seq<StoredConnection> := [];
      assert listed[..0] == [];
      while i < |listed|
        invariant 0 <= i <= |listed|
        invariant kept == WithoutWifi(listed[..i])
        invariant connections == kept + listed[i..]
        invariant j == |kept|
        invariant DeleteCall in failing ==> !HasWifi(listed[..i])
        invariant requests == old(requests) && clock == old(clock)
      {
        DeleteAllStep(listed, i, kept);
        if listed[i].connType == WIRELESS_TYPE {
          var deleted := Delete(j);
          if !deleted {
            DeleteAllFault(listed, i, kept);
            return false;
          }
        } else {
          kept := kept + [listed[i]];
          j := j + 1;
        }
        i := i + 1;
      }
      assert listed[..i] == listed;
      clock := clock + SETTLE_SECONDS;
      ok := true;
    }

    /**
     * stop_connection: look the name up in the id dictionary of the
     * listed connections (the last one listed with that id wins) and
     * delete it, then sleep for the settle delay. A missing name or a
     * failing request gives false and deletes nothing.
     */
    method StopConnection(connName: string := GENERIC_CONNECTION_NAME) returns (ok: bool)
      modifies this
      ensures ok == (ListConnectionsCall !in failing && DeleteCall !in failing
        && exists i :: 0 <= i < |old(connections)| && old(connections)[i].id == connName)
      ensures ok ==> exists k ::
        && 0 <= k < |old(connections)|
        && old(connections)[k].id == connName
        && (forall j :: k < j < |old(connections)| ==> old(connections)[j].id != connName)
        && connections == old(connections)[..k] + old(connections)[k + 1..]
      ensures !ok ==> connections == old(connections)
      ensures clock == if ok then old(clock) + SETTLE_SECONDS else old(clock)
      ensures requests == old(requests)
    {
      if ListConnectionsCall in failing {
        return false;
      }
      var byId := IdIndex(connections);
      if connName !in byId {
        return false;
      }
      var k := byId[connName];
      var deleted := Delete(k);
      if !deleted {
        return false;
      }
      clock := clock + SETTLE_SECONDS;
      ok := true;
    }

    /**
     * Storing a profile and then stopping the connection under its id
     * removes exactly what was stored: the registry is back as it was.
     */
    method AddThenStop(p: Profile) returns (added: bool, stopped: bool)
      modifies this
      ensures added == (AddConnectionCall !in failing)
      ensures added ==> stopped == (ListConnectionsCall !in failing && DeleteCall !in failing)
      ensures added && stopped ==> connections == old(connections)
      ensures !added ==> !stopped && connections == old(connections)
    {
      added := AddConnection(p);
      if !added {
        stopped := false;
        return;
      }
      ghost var before := connections;
      assert before[|before| - 1].id == p.connection.id;
      stopped := StopConnection(p.connection.id);
      if stopped {
        ghost var k :| && 0 <= k < |before|
          && before[k].id == p.connection.id
          && (forall j :: k < j < |before| ==> before[j].id != p.connection.id)
          && connections == before[..k] + before[k + 1..];
        StopFindsLastAdded(old(connections), StoredConnection(p.connection.id, p.connection.connType), k);
      }
    }

    /** stop_hotspot: stop the connection named `hotspot`. */
    method StopHotspot() returns (ok: bool)
      modifies this
      ensures ok == (ListConnectionsCall !in failing && DeleteCall !in failing
        && exists i :: 0 <= i < |old(connections)| && old(connections)[i].id == HOTSPOT_CONNECTION_NAME)
      ensures ok ==> exists k ::
        && 0 <= k < |old(connections)|
        && old(connections)[k].id == HOTSPOT_CONNECTION_NAME
        && (forall j :: k < j < |old(connections)| ==> old(connections)[j].id != HOTSPOT_CONNECTION_NAME)
        && connections == old(connections)[..k] + old(connections)[k + 1..]
      ensures !ok ==> connections == old(connections)
      ensures clock == if ok then old(clock) + SETTLE_SECONDS else old(clock)
      ensures requests == old(requests)
    {
      ok := StopConnection(HOTSPOT_CONNECTION_NAME);
    }

    /**
     * connect_to_AP: choose the profile, add it, find it again by name,
     * find the first device of the type it needs, activate, and wait for
     * the device to report ACTIVATED. `uuid` stands for the generated
     * identifier; `updates` for the states the device reports while the
     * helper sleeps.
     */
    method ConnectToAp(uuid: string, updates: seq<int>,
                       connType: Option<string> := None, connName: string := GENERIC_CONNECTION_NAME, ssid: Option<string> := None,
                       username: Option<string> := None, password: Option<string> := None)
      returns (ok: bool)
      modifies this
      ensures var sel := SelectProfile(connType, connName, ssid, username, password, uuid);
        var added := sel.Success? && AddConnectionCall !in failing;
        var wifi := FirstFit(devices, Some(NM_DEVICE_TYPE_WIFI));
        var reached := added && ListConnectionsCall !in failing && GetDevicesCall !in failing
          && wifi.Some? && ActivateConnectionCall !in failing;
        && connections == old(connections) + (if added then [StoredConnection(connName, WIRELESS_TYPE)] else [])
        && requests == old(requests)
          + (if added then [Added(sel.value)] else [])
          + (if reached then [Activated(|old(connections)|, wifi.value)] else [])
        && clock == old(clock) + (if reached then SleepsUntilActive(devices[wifi.value].state, updates) else 0)
        && ok == (reached && StateAt(devices[wifi.value].state, updates,
                    SleepsUntilActive(devices[wifi.value].state, updates)) == NM_DEVICE_STATE_ACTIVATED)
    {
      if connType.None? || ssid.None? {
        return false;
      }
      var selected := SelectProfile(connType, connName, ssid, username, password, uuid);
      if selected.Failure? {
        return false;
      }
      var profile := selected.value;
      var added := AddConnection(profile);
      if !added {
        return false;
      }

      // Find the connection again by its id; the one just added is listed last.
      if ListConnectionsCall in failing {
        return false;
      }
      var byId := IdIndex(connections);
      assert connections[|connections| - 1].id == connName;
      var conn := byId[connName];
      assert conn == |connections| - 1;
      var dtype := RequiredDeviceType(connections[conn].connType);

      if GetDevicesCall in failing {
        return false;
      }
      var found := FindDevice(devices, dtype);
      if found.None? {
        return false;
      }
      var dev := found.value;

      var activated := ActivateConnection(conn, dev);
      if !activated {
        return false;
      }
      var live, sleeps := WaitForActivation(devices[dev].state, updates);
      clock := clock + sleeps;
      ok := live;
    }

    /** start_hotspot: connect as the hotspot, with the SSID built from the device name. */
    method StartHotspot(deviceName: Option<string>, uuid: string, updates: seq<int>) returns (ok: bool)
      modifies this
      ensures var added := AddConnectionCall !in failing;
        var wifi := FirstFit(devices, Some(NM_DEVICE_TYPE_WIFI));
        var reached := added && ListConnectionsCall !in failing && GetDevicesCall !in failing
          && wifi.Some? && ActivateConnectionCall !in failing;
        && connections == old(connections) + (if added then [StoredConnection(HOTSPOT_CONNECTION_NAME, WIRELESS_TYPE)] else [])
        && requests == old(requests)
          + (if added then [Added(HotspotProfile(HOTSPOT_CONNECTION_NAME, HotspotSsid(deviceName), uuid))] else [])
          + (if reached then [Activated(|old(connections)|, wifi.value)] else [])
        && clock == old(clock) + (if reached then SleepsUntilActive(devices[wifi.value].state, updates) else 0)
        && ok == (reached && StateAt(devices[wifi.value].state, updates,
                    SleepsUntilActive(devices[wifi.value].state, updates)) == NM_DEVICE_STATE_ACTIVATED)
    {
      ok := ConnectToAp(uuid, updates, Some(CONN_TYPE_HOTSPOT), HOTSPOT_CONNECTION_NAME, Some(HotspotSsid(deviceName)));
    }
  }
}
