/** v3.py, the desktop front end: `test_port` returns a 5-tuple with the mod
    list, and `scan` parses the two port fields before probing the range. */
module V3 {
  import opened Wrappers
  import opened Varint
  import opened Json
  import opened StatusFields
  import opened Probe
  import opened Scanner
  import PyInt
  import Response

  /** The tuple `(port, version, motd, players, mods)`. */
  type Row = (int, Value, Value, string, seq<string>)

  /** What `test_port` makes of the value `get_mc_status` returned: `None`
      for a falsy value, otherwise the tuple of the fields it reads, or an
      exception when one of them cannot be read. */
  function Report(port: int, status: Option<Value>, lib: Library): (r: Probed<Row>)
    ensures r.NoServer? <==> status.None? || !Truthy(status.value)
    ensures r.Raised? <==>
      && status.Some? && Truthy(status.value)
      && (|| Motd(status.value).None? || VersionName(status.value).None? || PlayerCount(status.value, lib).None?
          || Mods(status.value).None?)
    ensures r.Server? ==>
      && r.value.0 == port
      && VersionName(status.value) == Some(r.value.1)
      && Motd(status.value) == Some(r.value.2)
      && PlayerCount(status.value, lib) == Some(r.value.3)
      && Mods(status.value) == Some(r.value.4)
  {
    match status
    case None => NoServer
    case Some(status) =>
      if !Truthy(status) then NoServer
      else
        match (Motd(status), VersionName(status), PlayerCount(status, lib))
        case (Some(motd), Some(version), Some(players)) =>
          (match Mods(status)
           case Some(mods) => Server((port, version, motd, players, mods))
           case None => Raised)
        case _ => Raised
  }

  /** `test_port(host, port)`, the peer on that port being `peer`: no server
      where nothing answers or the reply is not a truthy JSON value, and a
      result or an exception only from a port whose reply parsed. */
  function TestPort(host: string, port: int, peer: Peer, lib: Library): (r: Probed<Row>)
    ensures peer.Unreachable? || !(0 <= port < 0x1_0000) ==> r.NoServer?
    ensures r.NoServer? <==>
      GetStatus(host, port, peer, lib.loads).None? || !Truthy(GetStatus(host, port, peer, lib.loads).value)
    ensures !r.NoServer? ==> peer.Accepts? && Response.ParseResponse(peer.reply).Some?
    ensures r.Server? ==> r.value.0 == port
  {
    Report(port, GetStatus(host, port, peer, lib.loads), lib)
  }

  function Prober(host: string, net: int -> Peer, lib: Library): int -> Probed<Row> {
    p => TestPort(host, p, net(p), lib)
  }

  function PortOf(row: Row): int {
    row.0
  }

  lemma ProberCarriesPort(host: string, net: int -> Peer, lib: Library)
    ensures forall p :: Prober(host, net, lib)(p).Server? ==> PortOf(Prober(host, net, lib)(p).value) == p
  {
    forall p | Prober(host, net, lib)(p).Server? ensures PortOf(Prober(host, net, lib)(p).value) == p {
      assert Prober(host, net, lib)(p) == TestPort(host, p, net(p), lib);
    }
  }

  /** How a press of the Scan button ends: the "invalid ports" dialog, an
      exception out of some `test_port`, or the listing of the results,
      followed by the "no server found" line when there are none. */
  datatype Outcome = InvalidPorts | Aborted | Listed(results: seq<Row>, noServers: bool)

  /** The results an outcome lists, `None` when a `test_port` raised. */
  function Collected(r: Outcome): Option<seq<Row>> {
    if r.Listed? then Some(r.results) else None
  }

  /** The text area after a scan of `start..end` that did not stop at the
      port fields: the scan keeps the promises of `ScanResult`, and the "no
      server found" line appears exactly when no port found a server. */
  ghost predicate ListsScan(host: string, start: int, end: int, net: int -> Peer, lib: Library, r: Outcome) {
    && ScanResult(start, end, Prober(host, net, lib), PortOf, Collected(r))
    && (r.Listed? ==> (r.noServers <==> forall p :: start <= p <= end ==> !Prober(host, net, lib)(p).Server?))
  }

  /** `scan()` with the three entry fields' text. */
  function Scan(host: string, startText: string, endText: string, net: int -> Peer, lib: Library, picks: seq<nat>): (r: Outcome)
    ensures r.InvalidPorts? <==> PyInt.ParseInt(startText).None? || PyInt.ParseInt(endText).None?
    ensures !r.InvalidPorts? ==>
      ListsScan(host, PyInt.ParseInt(startText).value, PyInt.ParseInt(endText).value, net, lib, r)
  {
    match (PyInt.ParseInt(startText), PyInt.ParseInt(endText))
    case (Some(start), Some(end)) => ScanPorts(host, start, end, net, lib, picks)
    case _ => InvalidPorts
  }

  /** The part of `scan()` after the port fields parsed as `start` and `end`. */
  function ScanPorts(host: string, start: int, end: int, net: int -> Peer, lib: Library, picks: seq<nat>): (r: Outcome)
    ensures !r.InvalidPorts?
    ensures ListsScan(host, start, end, net, lib, r)
  {
    ProberCarriesPort(host, net, lib);
    ScanFacts(start, end, picks, Prober(host, net, lib), PortOf);
    match Collect(Probes(start, end, picks), Prober(host, net, lib))
    case None => Aborted
    case Some(results) => Listed(results, results == [])
  }

  /** A modded server that frames its reply as the protocol says is listed
      with the flat description text and one `modid@version` per mod, in the
      order the server sent them. */
  lemma ListsModdedServer(host: string, port: int, lib: Library, outer: nat, payload: seq<byte>, tail: seq<byte>,
                          closes: bool, name: string, d: Description, online: int, max: int, mods: seq<(string, string)>, extra: Extras)
    requires Outbound(host, port).Some? && |payload| <= Response.SsizeMax
    requires lib.loads(payload) == Some(StatusObject(name, d, online, max, Some(mods), extra))
    ensures var reply := EncodeVarint(outer) + EncodeVarint(0) + EncodeVarint(|payload|) + payload + tail;
      TestPort(host, port, Accepts(Stream(reply, closes)), lib)
      == Server((port, JStr(name), JStr(d.text), PyInt.Decimal(online) + "/" + PyInt.Decimal(max), TagList(mods)))
  {
    WellFormedReply(host, port, outer, payload, tail, closes, lib.loads);
    ListsStatusObject(port, name, d, online, max, Some(mods), extra, lib);
  }

  /** The tuple for a server's status object, with or without mods. */
  lemma ListsStatusObject(port: int, name: string, d: Description, online: int, max: int,
                          mods: Option<seq<(string, string)>>, extra: Extras, lib: Library)
    ensures Report(port, Some(StatusObject(name, d, online, max, mods, extra)), lib)
         == Server((port, JStr(name), JStr(d.text), PyInt.Decimal(online) + "/" + PyInt.Decimal(max),
                    if mods.None? then [] else TagList(mods.value)))
  {
    var status := StatusObject(name, d, online, max, mods, extra);
    ReadsStatusObject(name, d, online, max, mods, extra, lib);
    assert Truthy(status) by { assert "version" in status.fields; }
    ReportOfFields(port, status, lib, JStr(d.text), JStr(name), PyInt.Decimal(online) + "/" + PyInt.Decimal(max),
                   if mods.None? then [] else TagList(mods.value));
  }

  /** A truthy status whose four fields all read is listed with them. */
  lemma ReportOfFields(port: int, status: Value, lib: Library, motd: Value, version: Value, players: string, mods: seq<string>)
    requires status.JObj? && Truthy(status)
    requires Motd(status) == Some(motd) && VersionName(status) == Some(version)
    requires PlayerCount(status, lib) == Some(players) && Mods(status) == Some(mods)
    ensures Report(port, Some(status), lib) == Server((port, version, motd, players, mods))
  {
  }
}
