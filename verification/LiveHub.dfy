/** The registry of live connections and the devices they announce (internal/server/live.go). */
module LiveHub {

  // ------------------------------------------------------------------- registry

  /** `own` is the device each connection has announced, empty before that. */
  datatype Registry<C(==)> = Registry(clients: set<C>, own: map<C, string>, devices: map<string, C>)

  /** A connection opens, announces a device, or is unregistered, by its own end or by a failed send. */
  datatype Event<C> = Opens(c: C) | Announces(c: C, device: string) | Leaves(c: C)

  function Fresh<C>(): Registry<C> {
    Registry({}, map[], map[])
  }

  predicate Enabled<C(==)>(s: Registry<C>, e: Event<C>) {
    match e
    case Opens(c) => c !in s.own
    case Announces(c, device) => c in s.own && device != ""
    case Leaves(c) => c in s.own
  }

  /** The entries of everyone but c. */
  function Without<C(==)>(devices: map<string, C>, c: C): map<string, C> {
    map k | k in devices && devices[k] != c :: devices[k]
  }

  function Apply<C(==)>(s: Registry<C>, e: Event<C>): Registry<C> {
    match e
    case Opens(c) => s.(clients := s.clients + {c}, own := s.own[c := ""])
    case Announces(c, device) => s.(own := s.own[c := device], devices := Without(s.devices, c)[device := c])
    case Leaves(c) => s.(clients := s.clients - {c}, devices := Without(s.devices, c))
  }

  predicate Runs<C(==)>(s: Registry<C>, es: seq<Event<C>>)
    decreases |es|
  {
    es == [] || (Enabled(s, es[0]) && Runs(Apply(s, es[0]), es[1..]))
  }

  function Exec<C(==)>(s: Registry<C>, es: seq<Event<C>>): Registry<C>
    decreases |es|
  {
    if es == [] then s else Exec(Apply(s, es[0]), es[1..])
  }

  /** Every entry is some connection's own device. */
  ghost predicate Inv<C>(s: Registry<C>) {
    && (forall c | c in s.clients :: c in s.own)
    && (forall k | k in s.devices :: k != "" && s.devices[k] in s.own && s.own[s.devices[k]] == k)
  }

  lemma {:induction false} StepPreserves<C>(s: Registry<C>, e: Event<C>)
    requires Inv(s) && Enabled(s, e)
    ensures Inv(Apply(s, e))
  {
  }

  lemma {:induction false} RunPreserves<C>(s: Registry<C>, es: seq<Event<C>>)
    requires Inv(s) && Runs(s, es)
    ensures Inv(Exec(s, es))
    decreases |es|
  {
    if es != [] {
      StepPreserves(s, es[0]);
      RunPreserves(Apply(s, es[0]), es[1..]);
    }
  }

  /**
   * In every run each entry answers for the device its connection last
   * announced, and a connection has at most one entry.
   */
  lemma {:induction false} EntriesAreOwn<C>(es: seq<Event<C>>, j: string, k: string)
    requires Runs(Fresh(), es)
    ensures var s := Exec(Fresh(), es);
      && (k in s.devices ==> s.devices[k] in s.own && s.own[s.devices[k]] == k)
      && (j in s.devices && k in s.devices && s.devices[j] == s.devices[k] ==> j == k)
  {
    RunPreserves(Fresh<C>(), es);
  }

  /**
   * What an event leaves: the entry of an announced device is the connection
   * that announced it, and no other entry changes but that a connection which
   * announces or leaves gives up the one it had.
   */
  lemma {:induction false} EventIs<C>(s: Registry<C>, e: Event<C>, k: string, c: C)
    requires Inv(s) && Enabled(s, e)
    ensures var t := Apply(s, e);
      && (k in t.devices && t.devices[k] == c <==>
           if e.Announces? && (k == e.device || c == e.c) then k == e.device && c == e.c
           else k in s.devices && s.devices[k] == c && !(e.Leaves? && c == e.c))
      && (c in t.clients <==> (c in s.clients || (e.Opens? && c == e.c)) && !(e.Leaves? && c == e.c))
  {
  }

  /** The entry for device k belongs to a connection that is no longer registered. */
  predicate Stranded<C(==)>(s: Registry<C>, k: string) {
    k in s.devices && s.devices[k] !in s.clients
  }

  /**
   * An entry is left to an unregistered connection exactly when such a
   * connection announces a device: the announcement does not ask whether it is
   * still registered.
   */
  lemma {:induction false} StrandedIff<C>(s: Registry<C>, e: Event<C>, k: string)
    requires Inv(s) && Enabled(s, e) && !Stranded(s, k)
    ensures Stranded(Apply(s, e), k) <==> e.Announces? && e.c !in s.clients && e.device == k
  {
  }

  /** It happens: a connection that was unregistered after a failed send still reads an announcement. */
  lemma {:induction false} StrandingHappens<C>(c: C, device: string)
    requires device != ""
    ensures var es := [Opens(c), Leaves(c), Announces(c, device)];
      Runs(Fresh<C>(), es) && Stranded(Exec(Fresh<C>(), es), device)
  {
    var es := [Opens(c), Leaves(c), Announces(c, device)];
    var a := Apply(Fresh<C>(), es[0]);
    var b := Apply(a, es[1]);
    var d := Apply(b, es[2]);
    assert es[1..][1..] == [es[2]] && es[1..][1..][1..] == [];
    assert Runs(b, [es[2]]) && Exec(b, [es[2]]) == Exec(d, []) == d;
    assert Runs(a, es[1..]) && Exec(a, es[1..]) == Exec(b, es[1..][1..]);
    assert Runs(Fresh<C>(), es) && Exec(Fresh<C>(), es) == Exec(a, es[1..]);
  }

  /** Connections announce only while registered. */
  predicate AnnouncedWhileOpen<C(==)>(s: Registry<C>, es: seq<Event<C>>)
    decreases |es|
  {
    es == [] || ((es[0].Announces? ==> es[0].c in s.clients) && AnnouncedWhileOpen(Apply(s, es[0]), es[1..]))
  }

  /** Otherwise one of them announces when it is not. */
  lemma {:induction false} SomeUnregistered<C>(s: Registry<C>, es: seq<Event<C>>) returns (i: nat)
    requires Runs(s, es) && !AnnouncedWhileOpen(s, es)
    ensures i < |es| && Runs(s, es[..i]) && es[i].Announces? && es[i].c !in Exec(s, es[..i]).clients
    decreases |es|
  {
    i := 0;
    if es[0].Announces? ==> es[0].c in s.clients {
      var j := SomeUnregistered(Apply(s, es[0]), es[1..]);
      i := j + 1;
      assert es[..i][0] == es[0] && es[..i][1..] == es[1..][..j];
    } else {
      assert Exec(s, es[..0]) == s;
    }
  }

  /** While that never happens, in every run, every entry belongs to a registered connection. */
  lemma {:induction false} OpenEntriesOnly<C>(s: Registry<C>, es: seq<Event<C>>, k: string)
    requires Inv(s) && Runs(s, es) && AnnouncedWhileOpen(s, es) && !Stranded(s, k)
    ensures !Stranded(Exec(s, es), k)
    decreases |es|
  {
    if es != [] {
      StepPreserves(s, es[0]);
      StrandedIff(s, es[0], k);
      OpenEntriesOnly(Apply(s, es[0]), es[1..], k);
    }
  }

  /** A connection's one entry is found through the device it announced. */
  lemma {:induction false} OneEntry<C>(s: Registry<C>, c: C)
    requires Inv(s) && c in s.own
    ensures var k := s.own[c];
      Without(s.devices, c) == if k in s.devices && s.devices[k] == c then s.devices - {k} else s.devices
    ensures (exists k :: k in s.devices && s.devices[k] == c) <==> s.own[c] in s.devices && s.devices[s.own[c]] == c
  {
  }

  // ------------------------------------------------------------------ operations

  /** A websocket connection; deviceId is empty until it announces a device. */
  class Client {
    const username: string
    var deviceId: string

    constructor (username: string)
      ensures this.username == username && deviceId == ""
    {
      this.username := username;
      deviceId := "";
    }
  }

  /** Each method is one critical section under the hub's lock; `known` are all connections so far. */
  class Hub {
    var clients: set<Client>
    var devices: map<string, Client>
    ghost var known: set<Client>

    ghost function State(): Registry<Client>
      reads this, known
    {
      Registry(clients, map c | c in known :: c.deviceId, devices)
    }

    ghost predicate Valid()
      reads this, known
    {
      Inv(State())
    }

    constructor ()
      ensures Valid() && State() == Fresh()
    {
      clients, devices, known := {}, map[], {};
    }

    method Register(c: Client)
      requires Valid() && c !in known && c.deviceId == ""
      modifies this
      ensures Valid() && known == old(known) + {c}
      ensures State() == Apply(old(State()), Opens(c))
    {
      clients := clients + {c};
      known := known + {c};
    }

    /** The connection answers for this device alone; the last to announce it wins. */
    method RegisterDevice(c: Client, deviceId: string) returns (online: set<string>)
      requires Valid() && c in known && deviceId != ""
      modifies this`devices, c`deviceId
      ensures Valid() && known == old(known)
      ensures State() == Apply(old(State()), Announces(c, deviceId))
      ensures forall k :: k in online <==> k in devices && k != deviceId && devices[k].username == c.username
    {
      ghost var s := State();
      OneEntry(s, c);
      StepPreserves(s, Announces(c, deviceId));
      if c.deviceId != "" && c.deviceId in devices && devices[c.deviceId] == c {
        devices := devices - {c.deviceId};
      }
      c.deviceId := deviceId;
      devices := devices[deviceId := c];
      assert State().own == s.own[c := deviceId];
      assert State() == Apply(s, Announces(c, deviceId));
      online := set k | k in devices && k != deviceId && devices[k].username == c.username;
    }

    /** Only entries of this very connection go, so a late call never evicts its replacement. */
    method Unregister(c: Client) returns (gone: bool)
      requires Valid() && c in known
      modifies this`clients, this`devices
      ensures Valid() && known == old(known)
      ensures State() == Apply(old(State()), Leaves(c))
      ensures gone <==> exists k :: k in old(devices) && old(devices)[k] == c
    {
      ghost var s := State();
      OneEntry(s, c);
      StepPreserves(s, Leaves(c));
      gone := false;
      clients := clients - {c};
      if c.deviceId != "" && c.deviceId in devices && devices[c.deviceId] == c {
        devices := devices - {c.deviceId};
        gone := true;
      }
      assert State() == Apply(s, Leaves(c));
    }

    /** Where a message goes: never to the sender, nor to another user. */
    method RouteToDevice(toDeviceId: string, from: Client) returns (targets: set<Client>)
      requires Valid()
      ensures targets == (set k | k in devices && k == toDeviceId && devices[k] != from && devices[k].username == from.username :: devices[k])
      ensures forall t | t in targets :: t in known && t.deviceId == toDeviceId
    {
      targets := {};
      if toDeviceId in devices {
        var target := devices[toDeviceId];
        if target != from && target.username == from.username { targets := {target}; }
      }
    }
  }
}
