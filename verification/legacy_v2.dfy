/** legacy/v2.py, the command-line scanner: `test_port` returns a 4-tuple
    without mods, and the script reads the host and the port range from its
    arguments. */
module LegacyV2 {
  import opened Wrappers
  import opened Json
  import opened StatusFields
  import opened Probe
  import opened Scanner
  import App
  import PyInt
  import Response

  /** The tuple `(port, version, motd, players)`. */
  type Row = (int, Value, Value, string)

  /** What `test_port` makes of the value `get_mc_status` returned: `None`
      for a falsy value, otherwise the tuple of the fields it reads, or an
      exception when one of them cannot be read. The `"modinfo"` key is
      never read. */
  function Report(port: int, status: Option<Value>, lib: Library): (r: Probed<Row>)
    ensures r.NoServer? <==> status.None? || !Truthy(status.value)
    ensures r.Raised? <==>
      && status.Some? && Truthy(status.value)
      && (Motd(status.value).None? || VersionName(status.value).None? || PlayerCount(status.value, lib).None?)
    ensures r.Server? ==>
      && r.value.0 == port
      && VersionName(status.value) == Some(r.value.1)
      && Motd(status.value) == Some(r.value.2)
      && PlayerCount(status.value, lib) == Some(r.value.3)
  {
    match status
    case None => NoServer
    case Some(status) =>
      if !Truthy(status) then NoServer
      else
        match (Motd(status), VersionName(status), PlayerCount(status, lib))
        case (Some(motd), Some(version), Some(players)) => Server((port, version, motd, players))
        case _ => Raised
  }

  /** `test_port(host, port)`, the peer on that port being `peer`: no server
      where nothing answers or the reply is not a truthy JSON value, and a
      result or an exception only from a port whose reply parsed. */
  function TestPort(host: string, port: int, peer: Peer, lib: Library): (r: Probed<Row>)
    ensures peer.Unreachable? || !(0 <= port < 0x1_0000) ==> r.NoServer?
    ensures r.NoServer? <==>
      GetStatus(host, port, peer, lib.loads).None? || !Truthy(GetStatus(host, port, peer, lib.loads).value)
    ensures !r.NoServer? ==> peer.Accepts? && Response.ParseResponse(peer.reply).Some?
    ensures r.Server? ==> r.value.0 == port
  {
    Report(port, GetStatus(host, port, peer, lib.loads), lib)
  }

  function Prober(host: string, net: int -> Peer, lib: Library): int -> Probed<Row> {
    p => TestPort(host, p, net(p), lib)
  }

  function PortOf(row: Row): int {
    row.0
  }

  lemma ProberCarriesPort(host: string, net: int -> Peer, lib: Library)
    ensures forall p :: Prober(host, net, lib)(p).Server? ==> PortOf(Prober(host, net, lib)(p).value) == p
  {
    forall p | Prober(host, net, lib)(p).Server? ensures PortOf(Prober(host, net, lib)(p).value) == p {
      assert Prober(host, net, lib)(p) == TestPort(host, p, net(p), lib);
    }
  }

  /** How a run of the script ends: the usage line for too few arguments, the
      `ValueError` of a port argument that is not an integer, an exception out
      of some `test_port`, or the listing of the results, with the "no server
      found" line when there are none. */
  datatype Outcome = Usage | BadPort | Crashed | Finished(results: seq<Row>)

  /** The results a run lists, `None` when a `test_port` raised. */
  function Collected(r: Outcome): Option<seq<Row>> {
    if r.Finished? then Some(r.results) else None
  }

  /** The script's main block, `argv` being `sys.argv` (the script's own name
      first). */
  function Run(argv: seq<string>, net: int -> Peer, lib: Library, picks: seq<nat>): (r: Outcome)
    ensures r.Usage? <==> |argv| < 4
    ensures |argv| >= 4 ==>
      (r.BadPort? <==> PyInt.ParseInt(argv[2]).None? || PyInt.ParseInt(argv[3]).None?)
    ensures |argv| >= 4 && PyInt.ParseInt(argv[2]).Some? && PyInt.ParseInt(argv[3]).Some? ==>
      && (r.Crashed? || r.Finished?)
      && ScanResult(PyInt.ParseInt(argv[2]).value, PyInt.ParseInt(argv[3]).value, Prober(argv[1], net, lib), PortOf, Collected(r))
  {
    if |argv| < 4 then Usage
    else
      match (PyInt.ParseInt(argv[2]), PyInt.ParseInt(argv[3]))
      case (Some(start), Some(end)) => ScanPorts(argv[1], start, end, net, lib, picks)
      case _ => BadPort
  }

  /** The scan once the arguments gave the host and the ports `start` and `end`. */
  function ScanPorts(host: string, start: int, end: int, net: int -> Peer, lib: Library, picks: seq<nat>): (r: Outcome)
    ensures r.Crashed? || r.Finished?
    ensures ScanResult(start, end, Prober(host, net, lib), PortOf, Collected(r))
  {
    ProberCarriesPort(host, net, lib);
    ScanFacts(start, end, picks, Prober(host, net, lib), PortOf);
    match Collect(Probes(start, end, picks), Prober(host, net, lib))
    case None => Crashed
    case Some(results) => Finished(results)
  }

  /** Wherever the web version's `test_port` finds a server, this one finds
      the same server with the same fields, less the mods; wherever the web
      version finds none, neither does this one; and this one raises only
      where the web version raises too. */
  lemma AgreesWithApp(port: int, status: Option<Value>, lib: Library)
    ensures var web, cli := App.Report(port, status, lib), Report(port, status, lib);
      && (web.Server? ==> cli == Server((port, web.value.version, web.value.motd, web.value.players)))
      && (web.NoServer? <==> cli.NoServer?)
      && (cli.Raised? ==> web.Raised?)
  {
    var web, cli := App.Report(port, status, lib), Report(port, status, lib);
    if web.Server? {
      assert Motd(status.value) == Some(web.value.motd);
    }
  }

  /** A status object that is complete but for a `"modinfo"` that is not an
      object: the web version raises on it, this one lists the server. */
  lemma IgnoresModInfo(port: int, status: Value, lib: Library)
    requires status.JObj? && "modinfo" in status.fields && !status.fields["modinfo"].JObj?
    requires Motd(status).Some? && VersionName(status).Some? && PlayerCount(status, lib).Some?
    ensures Report(port, Some(status), lib).Server?
    ensures App.Report(port, Some(status), lib).Raised?
  {
    assert Truthy(status) by { assert "modinfo" in status.fields; }
  }
}
