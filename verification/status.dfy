/** How `test_port` reads the fields of a decoded status object. Each
    function returns `None` where the source's expression raises. */
module StatusFields {
  import opened Wrappers
  import opened Json

  /** `status["description"]["text"]` when the description is an object,
      otherwise the description itself. */
  function Motd(status: Value): (r: Option<Value>)
    ensures r.Some? <==>
      && status.JObj? && "description" in status.fields
      && (status.fields["description"].JObj? ==> "text" in status.fields["description"].fields)
    ensures r.Some? && status.fields["description"].JObj? ==> r.value == status.fields["description"].fields["text"]
    ensures r.Some? && !status.fields["description"].JObj? ==> r.value == status.fields["description"]
  {
    match Lookup(status, "description")
    case None => None
    case Some(description) => if description.JObj? then Lookup(description, "text") else Some(description)
  }

  /** `status["version"]["name"]`. */
  function VersionName(status: Value): (r: Option<Value>)
    ensures r.Some? <==>
      status.JObj? && "version" in status.fields
      && status.fields["version"].JObj? && "name" in status.fields["version"].fields
    ensures r.Some? ==> r.value == status.fields["version"].fields["name"]
  {
    match Lookup(status, "version")
    case None => None
    case Some(version) => Lookup(version, "name")
  }

  /** `f'{status["players"]["online"]}/{status["players"]["max"]}'`. */
  function PlayerCount(status: Value, lib: Library): (r: Option<string>)
    ensures r.Some? <==>
      && status.JObj? && "players" in status.fields
      && status.fields["players"].JObj?
      && "online" in status.fields["players"].fields && "max" in status.fields["players"].fields
    ensures r.Some? ==>
      var players := status.fields["players"].fields;
      r.value == Str(players["online"], lib) + "/" + Str(players["max"], lib)
  {
    match Lookup(status, "players")
    case None => None
    case Some(players) =>
      match (Lookup(players, "online"), Lookup(players, "max"))
      case (Some(online), Some(max)) => Some(Str(online, lib) + "/" + Str(max, lib))
      case _ => None
  }

  /** `m["modid"] + "@" + m["version"]` for one entry: both must be strings. */
  function ModTag(m: Value): (r: Option<string>)
    ensures r.Some? <==>
      && m.JObj? && "modid" in m.fields && "version" in m.fields
      && m.fields["modid"].JStr? && m.fields["version"].JStr?
    ensures r.Some? ==> r.value == m.fields["modid"].s + "@" + m.fields["version"].s
  {
    match (Lookup(m, "modid"), Lookup(m, "version"))
    case (Some(JStr(id)), Some(JStr(version))) => Some(id + "@" + version)
    case _ => None
  }

  /** The list comprehension over the entries: it raises at the first entry
      that has no tag, otherwise it keeps one tag per entry, in order. */
  function TagAll(entries: seq<Value>): (r: Option<seq<string>>)
    ensures r.Some? <==> forall i :: 0 <= i < |entries| ==> ModTag(entries[i]).Some?
    ensures r.Some? ==> |r.value| == |entries|
    ensures r.Some? ==> forall i :: 0 <= i < |entries| ==> r.value[i] == ModTag(entries[i]).value
  {
    if entries == [] then Some([])
    else
      match ModTag(entries[0])
      case None => None
      case Some(tag) =>
        match TagAll(entries[1..])
        case None => None
        case Some(tags) => Some([tag] + tags)
  }

  /** Iterating the `modList` value: a list yields its entries. Iterating an
      object yields its keys and a string its characters, and indexing either
      with `"modid"` raises, so only an empty one gets through; anything else
      is not iterable. */
  function ModListTags(list: Value): (r: Option<seq<string>>)
    ensures list.JArr? ==> r == TagAll(list.items)
    ensures !list.JArr? ==> (r.Some? <==> list == JObj(map[]) || list == JStr(""))
    ensures !list.JArr? && r.Some? ==> r.value == []
  {
    match list
    case JArr(entries) => TagAll(entries)
    case JObj(fields) => if fields == map[] then Some([]) else None
    case JStr(s) => if s == "" then Some([]) else None
    case _ => None
  }

  /** The `mods` list: empty without a `"modinfo"` key, otherwise the tags of
      `status["modinfo"].get("modList", [])`; `.get` raises unless
      `"modinfo"` is an object. `status` is already known to be an object. */
  function Mods(status: Value): (r: Option<seq<string>>)
    requires status.JObj?
    ensures "modinfo" !in status.fields ==> r == Some([])
    ensures "modinfo" in status.fields && !status.fields["modinfo"].JObj? ==> r == None
    ensures "modinfo" in status.fields && status.fields["modinfo"].JObj? && "modList" !in status.fields["modinfo"].fields
            ==> r == Some([])
    ensures "modinfo" in status.fields && status.fields["modinfo"].JObj? && "modList" in status.fields["modinfo"].fields
            ==> r == ModListTags(status.fields["modinfo"].fields["modList"])
  {
    if "modinfo" !in status.fields then Some([])
    else
      var info := status.fields["modinfo"];
      if !info.JObj? then None
      else ModListTags(if "modList" in info.fields then info.fields["modList"] else JArr([]))
  }

  /** The description a server may send: plain text, or an object whose
      `"text"` holds it. */
  datatype Description = Plain(text: string) | Nested(text: string)

  /** The keys a server sends beside the ones the client reads: at the top
      level (`favicon`, for one), inside `version` (`protocol`), inside
      `players` (`sample`), inside an object description (`extra`) and
      inside `modinfo` (a Forge server's `type`). The keys the client reads
      take precedence over these. */
  datatype Extras = Extras(
    top: map<string, Value>,
    version: map<string, Value>,
    players: map<string, Value>,
    description: map<string, Value>,
    modinfo: map<string, Value>)

  function DescriptionValue(d: Description, extra: map<string, Value>): Value {
    match d
    case Plain(t) => JStr(t)
    case Nested(t) => JObj(extra["text" := JStr(t)])
  }

  /** The tags a client should list for the mods a server declares. */
  function TagList(mods: seq<(string, string)>): (r: seq<string>)
    ensures |r| == |mods|
    ensures forall i :: 0 <= i < |mods| ==> r[i] == mods[i].0 + "@" + mods[i].1
  {
    if mods == [] then [] else [mods[0].0 + "@" + mods[0].1] + TagList(mods[1..])
  }

  /** The `modList` entries a server sends for its mods. */
  function ModEntries(mods: seq<(string, string)>): seq<Value> {
    if mods == [] then []
    else [JObj(map["modid" := JStr(mods[0].0), "version" := JStr(mods[0].1)])] + ModEntries(mods[1..])
  }

  /** A status object as a server sends it: the version name, the
      description, the player counts and, from a modded server, the mod
      list, with whatever other keys `extra` holds beside them. A server
      without mods sends no `"modinfo"` at all. */
  function StatusObject(name: string, d: Description, online: int, max: int,
                        mods: Option<seq<(string, string)>>, extra: Extras): (r: Value)
    ensures r.JObj? && "version" in r.fields && "players" in r.fields && "description" in r.fields
    ensures mods.None? <==> "modinfo" !in r.fields
  {
    var named := map[
      "version" := JObj(extra.version["name" := JStr(name)]),
      "description" := DescriptionValue(d, extra.description),
      "players" := JObj(extra.players["online" := JNum(online)]["max" := JNum(max)])];
    match mods
    case None => JObj((extra.top - {"modinfo"}) + named)
    case Some(list) =>
      JObj(extra.top + named["modinfo" := JObj(extra.modinfo["modList" := JArr(ModEntries(list))])])
  }

  /** The motd of a status object is the flat description text, whichever
      form the description takes. */
  lemma ReadsMotd(name: string, d: Description, online: int, max: int, mods: Option<seq<(string, string)>>, extra: Extras)
    ensures Motd(StatusObject(name, d, online, max, mods, extra)) == Some(JStr(d.text))
  {
    var status := StatusObject(name, d, online, max, mods, extra);
    assert status.fields["description"] == DescriptionValue(d, extra.description);
  }

  lemma ReadsVersion(name: string, d: Description, online: int, max: int, mods: Option<seq<(string, string)>>, extra: Extras)
    ensures VersionName(StatusObject(name, d, online, max, mods, extra)) == Some(JStr(name))
  {
    var status := StatusObject(name, d, online, max, mods, extra);
    assert status.fields["version"] == JObj(extra.version["name" := JStr(name)]);
  }

  lemma ReadsPlayers(name: string, d: Description, online: int, max: int, mods: Option<seq<(string, string)>>,
                     extra: Extras, lib: Library)
    ensures PlayerCount(StatusObject(name, d, online, max, mods, extra), lib)
         == Some(PyInt.Decimal(online) + "/" + PyInt.Decimal(max))
  {
    var status := StatusObject(name, d, online, max, mods, extra);
    var players := extra.players["online" := JNum(online)]["max" := JNum(max)];
    assert Lookup(status, "players") == Some(JObj(players));
    assert Lookup(JObj(players), "online") == Some(JNum(online));
    assert Lookup(JObj(players), "max") == Some(JNum(max));
    assert Str(JNum(online), lib) == PyInt.Decimal(online);
    assert Str(JNum(max), lib) == PyInt.Decimal(max);
  }

  lemma ReadsMods(name: string, d: Description, online: int, max: int, mods: Option<seq<(string, string)>>, extra: Extras)
    ensures Mods(StatusObject(name, d, online, max, mods, extra)) == Some(if mods.None? then [] else TagList(mods.value))
  {
    var status := StatusObject(name, d, online, max, mods, extra);
    if mods.Some? {
      var info := extra.modinfo["modList" := JArr(ModEntries(mods.value))];
      assert status.fields["modinfo"] == JObj(info);
      assert info["modList"] == JArr(ModEntries(mods.value));
      ReadsModList(mods.value);
    }
  }

  /** The fields `test_port` reads from a server's status object: the motd is
      the flat text whichever form the description takes, the players are
      `online/max` in decimal, and the mods are `modid@version` in list order,
      or none when the server sends no `"modinfo"`; the other keys the server
      sends change none of them. */
  lemma ReadsStatusObject(name: string, d: Description, online: int, max: int, mods: Option<seq<(string, string)>>,
                          extra: Extras, lib: Library)
    ensures var status := StatusObject(name, d, online, max, mods, extra);
      && Motd(status) == Some(JStr(d.text))
      && VersionName(status) == Some(JStr(name))
      && PlayerCount(status, lib) == Some(PyInt.Decimal(online) + "/" + PyInt.Decimal(max))
      && Mods(status) == Some(if mods.None? then [] else TagList(mods.value))
  {
    ReadsMotd(name, d, online, max, mods, extra);
    ReadsVersion(name, d, online, max, mods, extra);
    ReadsPlayers(name, d, online, max, mods, extra, lib);
    ReadsMods(name, d, online, max, mods, extra);
  }

  /** The declared mods come back as one tag each, in order. */
  lemma {:induction false} ReadsModList(mods: seq<(string, string)>)
    ensures TagAll(ModEntries(mods)) == Some(TagList(mods))
  {
    if mods != [] {
      ReadsModList(mods[1..]);
      var entries := ModEntries(mods);
      assert entries[1..] == ModEntries(mods[1..]);
      assert ModTag(entries[0]) == Some(mods[0].0 + "@" + mods[0].1);
    }
  }
}
