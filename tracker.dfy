/**
 * The chat tracker's route handlers: a registry of peers, keyed by user name, that a peer
 * joins by posting its name, address and port as JSON, and that any peer can list. The
 * peer-to-peer routes are stubs that always answer with the same error.
 */
module Tracker {
  import opened Common

  /** A JSON value as `json.loads` returns it (numbers are integers here). */
  datatype Json =
    | JNull
    | JBool(b: bool)
    | JInt(i: int)
    | JStr(s: string)
    | JArr(items: seq<Json>)
    | JObj(fields: map<string, Json>)

  /** Python truthiness: `None`, `False`, `0`, `""`, `[]` and `{}` are false. */
  predicate Truthy(v: Json) {
    match v
    case JNull => false
    case JBool(b) => b
    case JInt(i) => i != 0
    case JStr(s) => s != ""
    case JArr(items) => items != []
    case JObj(fields) => fields != map[]
  }

  /** The name of a value's Python type, as exception messages print it. */
  function TypeName(v: Json): string {
    match v
    case JNull => "NoneType"
    case JBool(_) => "bool"
    case JInt(_) => "int"
    case JStr(_) => "str"
    case JArr(_) => "list"
    case JObj(_) => "dict"
  }

  /**
   * A dictionary key up to Python's key equality: `True` and `1`, `False` and `0` are the
   * same key.
   */
  datatype Key = NullKey | IntKey(i: int) | StrKey(s: string)

  /** The key a value stands for, or `None` when the value is unhashable (a list or a dict). */
  function KeyOf(v: Json): (k: Option<Key>)
    ensures k.None? <==> v.JArr? || v.JObj?
  {
    match v
    case JNull => Some(NullKey)
    case JBool(b) => Some(IntKey(if b then 1 else 0))
    case JInt(i) => Some(IntKey(i))
    case JStr(s) => Some(StrKey(s))
    case JArr(_) => None
    case JObj(_) => None
  }

  /** `{"ip": ..., "port": ...}`: what the registry holds for a peer. */
  datatype Peer = Peer(ip: Json, port: Json)

  /** One item of the registry: the name as it was first stored, and the peer's address. */
  datatype Entry = Entry(name: Json, peer: Peer)

  /**
   * The position of the entry whose name is the key `k` in `entries`, the registry's items in
   * the dictionary's order, or -1 when there is none.
   */
  function Find(entries: seq<Entry>, k: Key): (i: int)
    ensures -1 <= i < |entries|
    ensures i == -1 <==> forall j :: 0 <= j < |entries| ==> KeyOf(entries[j].name) != Some(k)
    ensures i != -1 ==> KeyOf(entries[i].name) == Some(k)
    ensures forall j :: 0 <= j < i ==> KeyOf(entries[j].name) != Some(k)
  {
    if entries == [] then -1
    else if KeyOf(entries[0].name) == Some(k) then 0
    else
      var i := Find(entries[1..], k);
      if i == -1 then -1 else i + 1
  }

  /** `peer_list.get(k)`: the address stored under the key `k`. */
  function Lookup(entries: seq<Entry>, k: Key): Option<Peer> {
    var i := Find(entries, k);
    if i == -1 then None else Some(entries[i].peer)
  }

  /** Every name in the registry is hashable and no two of them are the same key. */
  predicate Distinct(entries: seq<Entry>) {
    && (forall i :: 0 <= i < |entries| ==> KeyOf(entries[i].name).Some?)
    && (forall i, j :: 0 <= i < j < |entries| ==> KeyOf(entries[i].name) != KeyOf(entries[j].name))
  }

  /** An item appended at the end is found only when the key is nowhere before it. */
  lemma {:induction false} FindAppend(entries: seq<Entry>, e: Entry, k: Key)
    ensures Find(entries + [e], k) ==
      if Find(entries, k) != -1 then Find(entries, k)
      else if KeyOf(e.name) == Some(k) then |entries| else -1
  {
    var r := entries + [e];
    if entries == [] {
      assert r[1..] == [];
    } else {
      assert r[0] == entries[0] && r[1..] == entries[1..] + [e];
      FindAppend(entries[1..], e, k);
    }
  }

  /** Replacing an item by one with a name of the same key finds every key where it was. */
  lemma FindUpdate(entries: seq<Entry>, i: nat, e: Entry, k: Key)
    requires i < |entries| && KeyOf(e.name) == KeyOf(entries[i].name)
    ensures Find(entries[i := e], k) == Find(entries, k)
  {
    var r := entries[i := e];
    assert forall j :: 0 <= j < |r| ==> KeyOf(r[j].name) == KeyOf(entries[j].name);
  }

  /**
   * `peer_list[name] = peer`. The name is read as a key, the new address is found under it and
   * every other key keeps its address. A key already present keeps its place and the name
   * first stored for it; a new one is appended.
   */
  function Put(entries: seq<Entry>, name: Json, peer: Peer): (r: seq<Entry>)
    requires KeyOf(name).Some?
    ensures Lookup(r, KeyOf(name).value) == Some(peer)
    ensures forall k :: k != KeyOf(name).value ==> Lookup(r, k) == Lookup(entries, k)
    ensures |r| == if Lookup(entries, KeyOf(name).value).None? then |entries| + 1 else |entries|
    ensures forall j :: 0 <= j < |entries| ==> r[j].name == entries[j].name
    ensures Lookup(entries, KeyOf(name).value).None? ==> r[|entries|].name == name
  {
    var i := Find(entries, KeyOf(name).value);
    if i == -1 then
      var r := entries + [Entry(name, peer)];
      FindAppend(entries, Entry(name, peer), KeyOf(name).value);
      assert forall k :: k != KeyOf(name).value ==> Find(r, k) == Find(entries, k) by {
        forall k | k != KeyOf(name).value {
          FindAppend(entries, Entry(name, peer), k);
        }
      }
      r
    else
      var r := entries[i := Entry(entries[i].name, peer)];
      assert forall k :: Find(r, k) == Find(entries, k) by {
        forall k {
          FindUpdate(entries, i, Entry(entries[i].name, peer), k);
        }
      }
      r
  }

  /** Storing an address keeps the registry's names hashable and distinct. */
  lemma PutDistinct(entries: seq<Entry>, name: Json, peer: Peer)
    requires KeyOf(name).Some? && Distinct(entries)
    ensures Distinct(Put(entries, name, peer))
  {
    var r := Put(entries, name, peer);
    if Lookup(entries, KeyOf(name).value).None? {
      assert r == entries + [Entry(name, peer)];
      forall i | 0 <= i < |entries|
        ensures KeyOf(r[i].name) != KeyOf(name)
      {
        assert r[i] == entries[i];
      }
    }
  }

  /**
   * The dictionaries the handlers return: `{"status": "registered", "peer_id": ...}`,
   * `{"status": "error", "message": ...}` and `{"status": "success", "peers": ...}`.
   */
  datatype Answer =
    | Registered(peerId: Json)
    | Failed(message: string)
    | Listing(peers: seq<Entry>)

  /** The `status` field of an answer. */
  function Status(a: Answer): (s: string)
    ensures s == "registered" <==> a.Registered?
    ensures s == "error" <==> a.Failed?
    ensures s == "success" <==> a.Listing?
  {
    match a
    case Registered(_) => "registered"
    case Failed(_) => "error"
    case Listing(_) => "success"
  }

  const MissingFields := "Missing username, ip, or port"
  const InvalidJson := "Invalid JSON body"
  const NotAPeer := "Đây là server, không phải peer. Hãy gọi P2P."

  /**
   * What `json.loads` does with a body: return a value, raise `JSONDecodeError`, or raise
   * another exception, such as the `RecursionError` of a deeply nested array or the
   * `ValueError` of an integer with too many digits, whose message is given.
   */
  datatype Loaded = Decoded(value: Json) | DecodeError | LoadRaised(message: string)

  /** `data.get(name)`: the field's value, `None` when it is missing. */
  function Field(fields: map<string, Json>, name: string): Json {
    if name in fields then fields[name] else JNull
  }

  /**
   * `submit_info` on the registry `entries` when `json.loads` of the body did `loaded`: the
   * registry afterwards and the answer.
   */
  function Submit(entries: seq<Entry>, loaded: Loaded): (r: (seq<Entry>, Answer))
    ensures r.1.Failed? ==> r.0 == entries
    ensures r.1.Registered? ==> KeyOf(r.1.peerId).Some? && Lookup(r.0, KeyOf(r.1.peerId).value).Some?
    ensures r.1.Listing? ==> false
  {
    match loaded
    case DecodeError => (entries, Failed(InvalidJson))
    case LoadRaised(m) => (entries, Failed(m))
    case Decoded(data) =>
      if !data.JObj? then
        (entries, Failed("'" + TypeName(data) + "' object has no attribute 'get'"))
      else
        var id := Field(data.fields, "username");
        var ip := Field(data.fields, "ip");
        var port := Field(data.fields, "port");
        if Truthy(id) && Truthy(ip) && Truthy(port) then
          if KeyOf(id).None? then
            (entries, Failed("unhashable type: '" + TypeName(id) + "'"))
          else
            (Put(entries, id, Peer(ip, port)), Registered(id))
        else
          (entries, Failed(MissingFields))
  }

  /** A body holding an object with a truthy, hashable `username` and a truthy `ip` and `port`. */
  predicate Complete(loaded: Loaded) {
    && loaded.Decoded? && loaded.value.JObj?
    && var fields := loaded.value.fields;
    && Truthy(Field(fields, "username")) && Truthy(Field(fields, "ip")) && Truthy(Field(fields, "port"))
    && KeyOf(Field(fields, "username")).Some?
  }

  /** The key a complete body registers under. */
  function NameKey(loaded: Loaded): Key
    requires Complete(loaded)
  {
    KeyOf(Field(loaded.value.fields, "username")).value
  }

  /**
   * A complete registration stores the peer's address under its name, overwriting any earlier
   * address for that name, leaves every other name as it was, and answers `registered` with
   * the name; anything else is an error that leaves the registry unchanged.
   */
  lemma SubmitRegisters(entries: seq<Entry>, loaded: Loaded)
    ensures Complete(loaded) ==>
      var fields := loaded.value.fields;
      var after := Submit(entries, loaded).0;
      && Submit(entries, loaded).1 == Registered(Field(fields, "username"))
      && Lookup(after, NameKey(loaded)) == Some(Peer(Field(fields, "ip"), Field(fields, "port")))
      && (forall k :: k != NameKey(loaded) ==> Lookup(after, k) == Lookup(entries, k))
    ensures !Complete(loaded) ==> Submit(entries, loaded).1.Failed? && Submit(entries, loaded).0 == entries
  {
  }

  /**
   * The registry keeps its order: a new name is appended after all the others, and a name
   * already present keeps its place and the name first stored for it.
   */
  lemma SubmitOrder(entries: seq<Entry>, loaded: Loaded)
    requires Complete(loaded)
    ensures var after := Submit(entries, loaded).0;
      && |entries| <= |after|
      && (forall j :: 0 <= j < |entries| ==> after[j].name == entries[j].name)
      && (Lookup(entries, NameKey(loaded)).None? ==> after[|entries|].name == Field(loaded.value.fields, "username"))
  {
  }

  /** A name already registered keeps the registry's size; a new one adds exactly one entry. */
  lemma SubmitSize(entries: seq<Entry>, loaded: Loaded)
    requires Complete(loaded)
    ensures |Submit(entries, loaded).0| == if Lookup(entries, NameKey(loaded)).Some? then |entries| else |entries| + 1
  {
  }

  /** A submission keeps the registry's names hashable and distinct. */
  lemma SubmitDistinct(entries: seq<Entry>, loaded: Loaded)
    requires Distinct(entries)
    ensures Distinct(Submit(entries, loaded).0)
  {
    if Complete(loaded) {
      PutDistinct(entries, Field(loaded.value.fields, "username"),
        Peer(Field(loaded.value.fields, "ip"), Field(loaded.value.fields, "port")));
    }
  }

  /**
   * The error answers: a body that is not JSON, another exception from `json.loads`, a JSON
   * value that is not an object, a missing or false field, and an unhashable user name.
   */
  lemma SubmitErrors(entries: seq<Entry>, loaded: Loaded)
    ensures loaded.DecodeError? ==> Submit(entries, loaded).1 == Failed("Invalid JSON body")
    ensures loaded.LoadRaised? ==> Submit(entries, loaded).1 == Failed(loaded.message)
    ensures loaded.Decoded? && !loaded.value.JObj? ==>
      Submit(entries, loaded).1 == Failed("'" + TypeName(loaded.value) + "' object has no attribute 'get'")
    ensures loaded.Decoded? && loaded.value.JObj? ==>
      var fields := loaded.value.fields;
      var complete := Truthy(Field(fields, "username")) && Truthy(Field(fields, "ip")) && Truthy(Field(fields, "port"));
      && (!complete ==> Submit(entries, loaded).1 == Failed("Missing username, ip, or port"))
      && (complete && KeyOf(Field(fields, "username")).None? ==>
            Submit(entries, loaded).1 == Failed("unhashable type: '" + TypeName(Field(fields, "username")) + "'"))
    ensures Complete(loaded) || Submit(entries, loaded).1.Failed?
  {
  }

  /** A falsy port, such as `0`, counts as missing even though the field is present. */
  lemma PortZeroIsMissing(entries: seq<Entry>, name: string, ip: string)
    requires name != "" && ip != ""
    ensures Submit(entries, Decoded(JObj(map["username" := JStr(name), "ip" := JStr(ip), "port" := JInt(0)]))).1
         == Failed(MissingFields)
  {
    var fields := map["username" := JStr(name), "ip" := JStr(ip), "port" := JInt(0)];
    assert Field(fields, "port") == JInt(0);
  }

  /**
   * `True` and `1` name the same entry: registering `true` after `1` overwrites the address
   * and keeps the name `1`.
   */
  lemma TrueIsOne(entries: seq<Entry>, a: Peer, b: Peer)
    requires Truthy(a.ip) && Truthy(a.port) && Truthy(b.ip) && Truthy(b.port)
    ensures var one := Decoded(JObj(map["username" := JInt(1), "ip" := a.ip, "port" := a.port]));
      var yes := Decoded(JObj(map["username" := JBool(true), "ip" := b.ip, "port" := b.port]));
      var after := Submit(Submit(entries, one).0, yes).0;
      && Lookup(after, IntKey(1)) == Some(b)
      && (Lookup(entries, IntKey(1)).None? ==> after == entries + [Entry(JInt(1), b)])
  {
    var one := map["username" := JInt(1), "ip" := a.ip, "port" := a.port];
    var yes := map["username" := JBool(true), "ip" := b.ip, "port" := b.port];
    assert Field(one, "username") == JInt(1) && Field(one, "ip") == a.ip && Field(one, "port") == a.port;
    assert Field(yes, "username") == JBool(true) && Field(yes, "ip") == b.ip && Field(yes, "port") == b.port;
    var mid := Put(entries, JInt(1), a);
    if Lookup(entries, IntKey(1)).None? {
      assert mid == entries + [Entry(JInt(1), a)];
      assert Find(mid, IntKey(1)) == |entries|;
    }
  }

  /** Storing the same address under the same name twice stores it once. */
  lemma PutIdempotent(entries: seq<Entry>, name: Json, peer: Peer)
    requires KeyOf(name).Some?
    ensures Put(Put(entries, name, peer), name, peer) == Put(entries, name, peer)
  {
    var r := Put(entries, name, peer);
    var i := Find(r, KeyOf(name).value);
    assert r[i].peer == peer;
    assert r[i := Entry(r[i].name, peer)] == r;
  }

  /** Posting the same body twice leaves the registry as posting it once, with the same answer. */
  lemma SubmitIdempotent(entries: seq<Entry>, loaded: Loaded)
    ensures Submit(Submit(entries, loaded).0, loaded) == Submit(entries, loaded)
  {
    if Complete(loaded) {
      var fields := loaded.value.fields;
      PutIdempotent(entries, Field(fields, "username"), Peer(Field(fields, "ip"), Field(fields, "port")));
    }
  }

  /** Addresses stored under two different keys can be stored in either order. */
  lemma PutCommutes(entries: seq<Entry>, nx: Json, px: Peer, ny: Json, py: Peer)
    requires KeyOf(nx).Some? && KeyOf(ny).Some? && KeyOf(nx) != KeyOf(ny)
    ensures forall k :: Lookup(Put(Put(entries, nx, px), ny, py), k) == Lookup(Put(Put(entries, ny, py), nx, px), k)
  {
    var xy := Put(Put(entries, nx, px), ny, py);
    var yx := Put(Put(entries, ny, py), nx, px);
    forall k
      ensures Lookup(xy, k) == Lookup(yx, k)
    {
      if k == KeyOf(nx).value {
        assert Lookup(xy, k) == Lookup(Put(entries, nx, px), k);
      } else if k == KeyOf(ny).value {
        assert Lookup(yx, k) == Lookup(Put(entries, ny, py), k);
      }
    }
  }

  /** When both keys are already present the order of the two stores leaves no trace. */
  lemma PutCommutesPresent(entries: seq<Entry>, nx: Json, px: Peer, ny: Json, py: Peer)
    requires KeyOf(nx).Some? && KeyOf(ny).Some? && KeyOf(nx) != KeyOf(ny)
    requires Lookup(entries, KeyOf(nx).value).Some? && Lookup(entries, KeyOf(ny).value).Some?
    ensures Put(Put(entries, nx, px), ny, py) == Put(Put(entries, ny, py), nx, px)
  {
    var i, j := Find(entries, KeyOf(nx).value), Find(entries, KeyOf(ny).value);
    var ex, ey := Entry(entries[i].name, px), Entry(entries[j].name, py);
    FindUpdate(entries, i, ex, KeyOf(ny).value);
    FindUpdate(entries, j, ey, KeyOf(nx).value);
    assert entries[i := ex][j := ey] == entries[j := ey][i := ex];
  }

  /** When both keys are new the later one is listed after the earlier. */
  lemma PutCommutesNew(entries: seq<Entry>, nx: Json, px: Peer, ny: Json, py: Peer)
    requires KeyOf(nx).Some? && KeyOf(ny).Some? && KeyOf(nx) != KeyOf(ny)
    requires Lookup(entries, KeyOf(nx).value).None? && Lookup(entries, KeyOf(ny).value).None?
    ensures Put(Put(entries, nx, px), ny, py) != Put(Put(entries, ny, py), nx, px)
  {
    assert Put(Put(entries, nx, px), ny, py)[|entries|].name == nx;
    assert Put(Put(entries, ny, py), nx, px)[|entries|].name == ny;
  }

  /**
   * Registrations under different names can be made in either order and every name then has
   * the same address; the listing is the same when both names were already present, and
   * differs in order when both are new.
   */
  lemma SubmitCommutes(entries: seq<Entry>, x: Loaded, y: Loaded)
    requires Complete(x) && Complete(y) && NameKey(x) != NameKey(y)
    ensures var xy := Submit(Submit(entries, x).0, y).0;
      var yx := Submit(Submit(entries, y).0, x).0;
      && (forall k :: Lookup(xy, k) == Lookup(yx, k))
      && (Lookup(entries, NameKey(x)).Some? && Lookup(entries, NameKey(y)).Some? ==> xy == yx)
      && (Lookup(entries, NameKey(x)).None? && Lookup(entries, NameKey(y)).None? ==> xy != yx)
  {
    var nx, px := Field(x.value.fields, "username"), Peer(Field(x.value.fields, "ip"), Field(x.value.fields, "port"));
    var ny, py := Field(y.value.fields, "username"), Peer(Field(y.value.fields, "ip"), Field(y.value.fields, "port"));
    PutCommutes(entries, nx, px, ny, py);
    if Lookup(entries, NameKey(x)).Some? && Lookup(entries, NameKey(y)).Some? {
      PutCommutesPresent(entries, nx, px, ny, py);
    }
    if Lookup(entries, NameKey(x)).None? && Lookup(entries, NameKey(y)).None? {
      PutCommutesNew(entries, nx, px, ny, py);
    }
  }

  /** `connect_peer`: this is the tracker, not a peer, whatever the request says. */
  function ConnectPeer(headers: map<string, string>, body: string): (a: Answer)
    ensures a.Failed? && Status(a) == "error"
  {
    Failed(NotAPeer)
  }

  /** `broadcast_peer`: the same refusal. */
  function BroadcastPeer(headers: map<string, string>, body: string): (a: Answer)
    ensures a.Failed? && Status(a) == "error"
  {
    Failed(NotAPeer)
  }

  /** `send_peer`: the same refusal. */
  function SendPeer(headers: map<string, string>, body: string): (a: Answer)
    ensures a.Failed? && Status(a) == "error"
  {
    Failed(NotAPeer)
  }

  /** The three peer-to-peer stubs give one and the same answer for any two requests. */
  lemma StubsAgree(h: map<string, string>, b: string, h': map<string, string>, b': string)
    ensures ConnectPeer(h, b) == BroadcastPeer(h', b') == SendPeer(h, b') == ConnectPeer(h', b')
  {
  }

  /** The tracker's state: the module-level `peer_list`, its items in the dictionary's order. */
  class Registry {
    var entries: seq<Entry>

    ghost predicate Valid()
      reads this
    {
      Distinct(entries)
    }

    constructor ()
      ensures entries == [] && Valid()
    {
      entries := [];
    }

    /**
     * `submit_info`: parses the body with `loads`, which stands for `json.loads`, checks the
     * three fields and stores the peer under its name.
     */
    method SubmitInfo(body: string, loads: string -> Loaded) returns (a: Answer)
      requires Valid()
      modifies this
      ensures (entries, a) == Submit(old(entries), loads(body)) && Valid()
    {
      SubmitDistinct(entries, loads(body));
      var loaded := loads(body);
      if loaded.DecodeError? {
        return Failed(InvalidJson);
      }
      if loaded.LoadRaised? {
        return Failed(loaded.message);
      }
      var data := loaded.value;
      if !data.JObj? {
        return Failed("'" + TypeName(data) + "' object has no attribute 'get'");
      }
      var id := Field(data.fields, "username");
      var ip := Field(data.fields, "ip");
      var port := Field(data.fields, "port");
      if Truthy(id) && Truthy(ip) && Truthy(port) {
        if KeyOf(id).None? {
          return Failed("unhashable type: '" + TypeName(id) + "'");
        }
        entries := Put(entries, id, Peer(ip, port));
        return Registered(id);
      }
      return Failed(MissingFields);
    }

    /** `get_list`: the whole registry in its order, which it does not change. */
    method GetList() returns (a: Answer)
      ensures a == Listing(entries) && Status(a) == "success"
    {
      return Listing(entries);
    }
  }

  /** After a complete registration, the listing holds the peer under its name. */
  method RegisterThenList(r: Registry, body: string, loads: string -> Loaded) returns (listed: Answer)
    requires r.Valid() && Complete(loads(body))
    modifies r
    ensures var fields := loads(body).value.fields;
      && listed.Listing? && Distinct(listed.peers)
      && Lookup(listed.peers, NameKey(loads(body))) == Some(Peer(Field(fields, "ip"), Field(fields, "port")))
  {
    var a := r.SubmitInfo(body, loads);
    SubmitRegisters(old(r.entries), loads(body));
    listed := r.GetList();
  }
}
