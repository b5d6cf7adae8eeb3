/** app.py, the web front end: `test_port` returns a dictionary with the
    mod list, and the `/scan` route probes a port range and answers with the
    results that are not `None`. */
module App {
  import opened Wrappers
  import opened Varint
  import opened Json
  import opened StatusFields
  import opened Probe
  import opened Scanner
  import PyInt
  import Response

  /** The dictionary `test_port` returns. */
  datatype Entry = Entry(port: int, version: Value, motd: Value, players: string, mods: seq<string>)

  /** What `test_port` makes of the value `get_mc_status` returned: `None`
      for a falsy value, otherwise the dictionary of the fields it reads, or
      an exception when one of them cannot be read. */
  function Report(port: int, status: Option<Value>, lib: Library): (r: Probed<Entry>)
    ensures r.NoServer? <==> status.None? || !Truthy(status.value)
    ensures r.Raised? <==>
      && status.Some? && Truthy(status.value)
      && (|| Motd(status.value).None? || VersionName(status.value).None? || PlayerCount(status.value, lib).None?
          || Mods(status.value).None?)
    ensures r.Server? ==>
      && r.value.port == port
      && Motd(status.value) == Some(r.value.motd)
      && VersionName(status.value) == Some(r.value.version)
      && PlayerCount(status.value, lib) == Some(r.value.players)
      && Mods(status.value) == Some(r.value.mods)
  {
    match status
    case None => NoServer
    case Some(status) =>
      if !Truthy(status) then NoServer
      else
        match (Motd(status), VersionName(status), PlayerCount(status, lib))
        case (Some(motd), Some(version), Some(players)) =>
          (match Mods(status)
           case Some(mods) => Server(Entry(port, version, motd, players, mods))
           case None => Raised)
        case _ => Raised
  }

  /** `test_port(host, port)`, the peer on that port being `peer`: no server
      where nothing answers or the reply is not a truthy JSON value, and a
      result or an exception only from a port whose reply parsed. */
  function TestPort(host: string, port: int, peer: Peer, lib: Library): (r: Probed<Entry>)
    ensures peer.Unreachable? || !(0 <= port < 0x1_0000) ==> r.NoServer?
    ensures r.NoServer? <==>
      GetStatus(host, port, peer, lib.loads).None? || !Truthy(GetStatus(host, port, peer, lib.loads).value)
    ensures !r.NoServer? ==> peer.Accepts? && Response.ParseResponse(peer.reply).Some?
    ensures r.Server? ==> r.value.port == port
  {
    Report(port, GetStatus(host, port, peer, lib.loads), lib)
  }

  function Prober(host: string, net: int -> Peer, lib: Library): int -> Probed<Entry> {
    p => TestPort(host, p, net(p), lib)
  }

  function PortOf(e: Entry): int {
    e.port
  }

  lemma ProberCarriesPort(host: string, net: int -> Peer, lib: Library)
    ensures forall p :: Prober(host, net, lib)(p).Server? ==> PortOf(Prober(host, net, lib)(p).value) == p
  {
    forall p | Prober(host, net, lib)(p).Server? ensures PortOf(Prober(host, net, lib)(p).value) == p {
      assert Prober(host, net, lib)(p) == TestPort(host, p, net(p), lib);
    }
  }

  /** The range/collect part of `/scan` for the ports `start..end`, with
      `net(p)` the peer on port `p` and `picks` the completion order: `None`
      when a `test_port` raises (the request fails), otherwise the results
      that are not `None`. */
  function Scan(host: string, start: int, end: int, net: int -> Peer, lib: Library, picks: seq<nat>): (r: Option<seq<Entry>>)
    ensures ScanResult(start, end, Prober(host, net, lib), PortOf, r)
    ensures Rearranged(r, Collect(Range(start, end), Prober(host, net, lib)))
  {
    ProberCarriesPort(host, net, lib);
    ScanFacts(start, end, picks, Prober(host, net, lib), PortOf);
    Collect(Probes(start, end, picks), Prober(host, net, lib))
  }

  /** A server that frames its reply as the protocol says and whose JSON is
      the status object for `name`, `d`, `online` and `max` (no mods) is
      reported with the flat description text, `"online/max"` and no mods,
      whatever the outer length says and whatever follows the payload. */
  lemma ReportsWellFormedServer(host: string, port: int, lib: Library, outer: nat, payload: seq<byte>, tail: seq<byte>,
                                closes: bool, name: string, d: Description, online: int, max: int, extra: Extras)
    requires Outbound(host, port).Some? && |payload| <= Response.SsizeMax
    requires lib.loads(payload) == Some(StatusObject(name, d, online, max, None, extra))
    ensures var reply := EncodeVarint(outer) + EncodeVarint(0) + EncodeVarint(|payload|) + payload + tail;
      TestPort(host, port, Accepts(Stream(reply, closes)), lib)
      == Server(Entry(port, JStr(name), JStr(d.text), PyInt.Decimal(online) + "/" + PyInt.Decimal(max), []))
  {
    WellFormedReply(host, port, outer, payload, tail, closes, lib.loads);
    ReportsStatusObject(port, name, d, online, max, None, extra, lib);
  }

  /** The dictionary for a server's status object, with or without mods. */
  lemma ReportsStatusObject(port: int, name: string, d: Description, online: int, max: int,
                            mods: Option<seq<(string, string)>>, extra: Extras, lib: Library)
    ensures Report(port, Some(StatusObject(name, d, online, max, mods, extra)), lib)
         == Server(Entry(port, JStr(name), JStr(d.text), PyInt.Decimal(online) + "/" + PyInt.Decimal(max),
                         if mods.None? then [] else TagList(mods.value)))
  {
    var status := StatusObject(name, d, online, max, mods, extra);
    ReadsStatusObject(name, d, online, max, mods, extra, lib);
    assert Truthy(status) by { assert "version" in status.fields; }
    ReportOfFields(port, status, lib, JStr(d.text), JStr(name), PyInt.Decimal(online) + "/" + PyInt.Decimal(max),
                   if mods.None? then [] else TagList(mods.value));
  }

  /** A truthy status whose four fields all read is reported with them. */
  lemma ReportOfFields(port: int, status: Value, lib: Library, motd: Value, version: Value, players: string, mods: seq<string>)
    requires status.JObj? && Truthy(status)
    requires Motd(status) == Some(motd) && VersionName(status) == Some(version)
    requires PlayerCount(status, lib) == Some(players) && Mods(status) == Some(mods)
    ensures Report(port, Some(status), lib) == Server(Entry(port, version, motd, players, mods))
  {
  }

  /** A truthy status object without a `"version"` key makes `test_port`
      raise instead of returning `None`. */
  lemma MissingVersionRaises(port: int, status: Value, lib: Library)
    requires status.JObj? && status.fields != map[] && "version" !in status.fields
    ensures Report(port, Some(status), lib).Raised?
  {
    assert VersionName(status).None?;
  }
}
