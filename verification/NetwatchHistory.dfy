/**
 What the network watch should know from the claims it has seen (`netwatch.py`, class `Detector`): who holds an
 address since when, and which claims take an address over. Told step by step, as the program keeps its tables, and
 told from the whole history.
 */
module NetwatchHistory {
  import opened Wrappers

  const IDLE_BINDING_SECONDS := 3600

  type Address = string
  type Mac = string

  /** A claim the detector takes notice of, and the gateway it knows at that time. */
  datatype Claim = Claim(ip: Address, mac: Mac, now: int, gateway: Option<Address>)

  datatype Binding = Binding(mac: Mac, first: int, last: int)

  datatype Known = Known(first: int, ip: Address)

  datatype Severity = Info | Warn | Bad

  /** What a finding is about; findings about the same thing are one finding sighted again. */
  datatype Subject =
    | NewDevice(mac: Mac)
    | GatewayChanged(ip: Address, mac: Mac)
    | Moved(ip: Address, mac: Mac)
    | Conflict(ip: Address, mac: Mac)
    | SecondServer(ip: Address)

  datatype Sighting = Sighting(about: Subject, severity: Severity, now: int)

  type Bindings = map<Address, Binding>
  type Devices = map<Mac, Known>

  // ----- step by step ------------------------------------------------------------------

  /** Who holds the address after a claim. */
  function Bind(bindings: Bindings, c: Claim): Bindings {
    if c.ip in bindings && bindings[c.ip].mac == c.mac then bindings[c.ip := bindings[c.ip].(last := c.now)]
    else bindings[c.ip := Binding(c.mac, c.now, c.now)]
  }

  function Meet(known: Devices, c: Claim): Devices {
    if c.mac in known then known[c.mac := known[c.mac].(ip := c.ip)] else known[c.mac := Known(c.now, c.ip)]
  }

  /** The sighting a claim makes when it takes the address from another device. */
  function Takeover(bindings: Bindings, c: Claim): seq<Sighting> {
    if c.ip !in bindings || bindings[c.ip].mac == c.mac then []
    else if c.gateway == Some(c.ip) then [Sighting(GatewayChanged(c.ip, c.mac), Bad, c.now)]
    else if c.now - bindings[c.ip].last > IDLE_BINDING_SECONDS then [Sighting(Moved(c.ip, c.mac), Info, c.now)]
    else [Sighting(Conflict(c.ip, c.mac), Warn, c.now)]
  }

  function Appearance(known: Devices, learningUntil: int, c: Claim): seq<Sighting> {
    if c.mac !in known && c.now >= learningUntil then [Sighting(NewDevice(c.mac), Info, c.now)] else []
  }

  type History = seq<Claim>

  function BindAll(bindings: Bindings, history: History): Bindings
    decreases |history|
  {
    if history == [] then bindings
    else Bind(BindAll(bindings, history[..|history| - 1]), history[|history| - 1])
  }

  function MeetAll(known: Devices, history: History): Devices
    decreases |history|
  {
    if history == [] then known
    else Meet(MeetAll(known, history[..|history| - 1]), history[|history| - 1])
  }

  function Takeovers(bindings: Bindings, history: History): seq<Sighting>
    decreases |history|
  {
    if history == [] then []
    else
      var before := history[..|history| - 1];
      Takeovers(bindings, before) + Takeover(BindAll(bindings, before), history[|history| - 1])
  }

  // ----- from the history ----------------------------------------------------------------

  /** The claims of one address, in order. */
  function ClaimsOf(history: History, ip: Address): History
    decreases |history|
  {
    if history == [] then []
    else
      var last := history[|history| - 1];
      ClaimsOf(history[..|history| - 1], ip) + if last.ip == ip then [last] else []
  }

  /** Where the unbroken run of the last claimant starts. */
  function RunStart(claims: History): (i: nat)
    requires claims != []
    ensures i < |claims|
    decreases |claims|
  {
    if |claims| >= 2 && claims[|claims| - 2].mac == claims[|claims| - 1].mac then RunStart(claims[..|claims| - 1])
    else |claims| - 1
  }

  /** It is the longest run of claims by the last claimant. */
  lemma {:induction false} RunStartIsStart(claims: History)
    requires claims != []
    ensures var i := RunStart(claims);
      && (forall k :: i <= k < |claims| ==> claims[k].mac == claims[|claims| - 1].mac)
      && (i > 0 ==> claims[i - 1].mac != claims[|claims| - 1].mac)
    decreases |claims|
  {
    if |claims| >= 2 && claims[|claims| - 2].mac == claims[|claims| - 1].mac {
      RunStartIsStart(claims[..|claims| - 1]);
    }
  }

  function HolderOf(claims: History): Binding
    requires claims != []
  {
    var last := claims[|claims| - 1];
    Binding(last.mac, claims[RunStart(claims)].now, last.now)
  }

  /** A saved binding says as much as two claims: one at its start and one at its end. */
  function Saying(saved: Bindings, ip: Address): (claims: History)
    ensures claims == [] <==> ip !in saved
  {
    if ip in saved then
      var b := saved[ip];
      [Claim(ip, b.mac, b.first, None), Claim(ip, b.mac, b.last, None)]
    else []
  }

  /** All that is known of who claimed an address. */
  function AllClaims(saved: Bindings, history: History, ip: Address): History {
    Saying(saved, ip) + ClaimsOf(history, ip)
  }

  /** The table says of an address who claimed it last, and when the unbroken run of its claims started and ended. */
  lemma {:induction false} BindingIsHolder(saved: Bindings, history: History, ip: Address)
    ensures var (bindings, claims) := (BindAll(saved, history), AllClaims(saved, history, ip));
      (ip in bindings <==> claims != []) && (ip in bindings ==> bindings[ip] == HolderOf(claims))
    decreases |history|
  {
    hide Bind, HolderOf;
    if history != [] {
      var before, c := history[..|history| - 1], history[|history| - 1];
      BindingIsHolder(saved, before, ip);
      HolderAfter(BindAll(saved, before), AllClaims(saved, before, ip), ip, c);
      var more: History := if c.ip == ip then [c] else [];
      assert Saying(saved, ip) + (ClaimsOf(before, ip) + more) == (Saying(saved, ip) + ClaimsOf(before, ip)) + more;
    } else {
      SavedIsHolder(saved, ip);
      assert Saying(saved, ip) + [] == Saying(saved, ip);
    }
  }

  lemma SavedIsHolder(saved: Bindings, ip: Address)
    ensures ip in saved ==> saved[ip] == HolderOf(Saying(saved, ip))
  {
  }

  /** One more claim: of another address, of the one who holds it, or of somebody else. */
  lemma HolderAfter(bindings: Bindings, earlier: History, ip: Address, c: Claim)
    requires (ip in bindings <==> earlier != []) && (ip in bindings ==> bindings[ip] == HolderOf(earlier))
    ensures var (after, claims) := (Bind(bindings, c), earlier + if c.ip == ip then [c] else []);
      (ip in after <==> claims != []) && (ip in after ==> after[ip] == HolderOf(claims))
  {
    if c.ip == ip {
      var claims := earlier + [c];
      if earlier != [] {
        assert claims[|claims| - 2] == earlier[|earlier| - 1];
        assert claims[..|claims| - 1] == earlier;
        if earlier[|earlier| - 1].mac == c.mac {
          assert claims[RunStart(claims)] == earlier[RunStart(earlier)];
        }
      }
    } else {
      assert earlier + [] == earlier;
    }
  }

  /**
   A claim is sighted as a takeover exactly when the previous claim of that address came from another device: as a bad
   change of the gateway, as information about a move after more than an hour's quiet, as a conflict otherwise.
   */
  lemma TakeoverFromHistory(saved: Bindings, history: History, c: Claim)
    ensures var (claims, sighted) := (AllClaims(saved, history, c.ip), Takeover(BindAll(saved, history), c));
      && (sighted != [] <==> claims != [] && claims[|claims| - 1].mac != c.mac)
      && (sighted != [] ==> sighted == [
            if c.gateway == Some(c.ip) then Sighting(GatewayChanged(c.ip, c.mac), Bad, c.now)
            else if c.now - claims[|claims| - 1].now > IDLE_BINDING_SECONDS then Sighting(Moved(c.ip, c.mac), Info, c.now)
            else Sighting(Conflict(c.ip, c.mac), Warn, c.now)])
  {
    BindingIsHolder(saved, history, c.ip);
  }

  /** The claims of one device, in order. */
  function ClaimsBy(history: History, mac: Mac): History
    decreases |history|
  {
    if history == [] then []
    else
      var last := history[|history| - 1];
      ClaimsBy(history[..|history| - 1], mac) + if last.mac == mac then [last] else []
  }

  /** The table says of a device when it was met first and which address it claimed last. */
  lemma {:induction false} DeviceIsMet(saved: Devices, history: History, mac: Mac)
    ensures var (known, claims) := (MeetAll(saved, history), ClaimsBy(history, mac));
      && (mac in known <==> mac in saved || claims != [])
      && (mac in known ==>
            && known[mac].first == (if mac in saved then saved[mac].first else claims[0].now)
            && known[mac].ip == (if claims == [] then saved[mac].ip else claims[|claims| - 1].ip))
    decreases |history|
  {
    hide Meet;
    if history != [] {
      var before, c := history[..|history| - 1], history[|history| - 1];
      DeviceIsMet(saved, before, mac);
      MetOrNot(MeetAll(saved, before), c, mac);
      var claims := ClaimsBy(before, mac);
      assert c.mac == mac ==> (claims + [c])[|claims|] == c && (claims != [] ==> (claims + [c])[0] == claims[0]);
      assert c.mac != mac ==> claims + [] == claims;
    }
  }

  lemma MetOrNot(known: Devices, c: Claim, mac: Mac)
    ensures var after := Meet(known, c);
      && (mac in after <==> mac in known || mac == c.mac)
      && (mac in after ==>
            && after[mac].first == (if mac in known then known[mac].first else c.now)
            && after[mac].ip == (if mac == c.mac then c.ip else known[mac].ip))
  {
  }

  // ----- new devices -----------------------------------------------------------------------

  /** A claim announces its device exactly when nothing was saved of it, it has made no claim, and learning is over. */
  lemma AppearanceFromHistory(saved: Devices, history: History, learningUntil: int, c: Claim)
    ensures Appearance(MeetAll(saved, history), learningUntil, c) ==
      if c.mac !in saved && ClaimsBy(history, c.mac) == [] && c.now >= learningUntil
      then [Sighting(NewDevice(c.mac), Info, c.now)] else []
  {
    DeviceIsMet(saved, history, c.mac);
  }

  /** The sightings that are about one thing, in order. */
  function About(sighted: seq<Sighting>, about: Subject): seq<Sighting>
    decreases |sighted|
  {
    if sighted == [] then []
    else
      var last := sighted[|sighted| - 1];
      About(sighted[..|sighted| - 1], about) + if last.about == about then [last] else []
  }

  lemma {:induction false} AboutSum(a: seq<Sighting>, b: seq<Sighting>, about: Subject)
    ensures About(a + b, about) == About(a, about) + About(b, about)
    decreases |b|
  {
    if b == [] {
      assert a + b == a;
    } else {
      assert (a + b)[..|a + b| - 1] == a + b[..|b| - 1];
      AboutSum(a, b[..|b| - 1], about);
    }
  }

  /** What should be said of a device: that it is new, once, when it was first met and learning was over then. */
  function FirstMet(saved: Devices, learningUntil: int, history: History, mac: Mac): seq<Sighting> {
    var claims := ClaimsBy(history, mac);
    if mac !in saved && claims != [] && claims[0].now >= learningUntil
    then [Sighting(NewDevice(mac), Info, claims[0].now)] else []
  }

  ghost predicate NewOnesTold(saved: Devices, learningUntil: int, history: History, sighted: seq<Sighting>) {
    forall mac :: About(sighted, NewDevice(mac)) == FirstMet(saved, learningUntil, history, mac)
  }

  lemma FirstMetStep(saved: Devices, learningUntil: int, history: History, c: Claim, mac: Mac)
    ensures FirstMet(saved, learningUntil, history + [c], mac) ==
      FirstMet(saved, learningUntil, history, mac) +
      About(Appearance(MeetAll(saved, history), learningUntil, c), NewDevice(mac))
  {
    hide MeetAll, Appearance, About;
    assert (history + [c])[..|history|] == history;
    AppearanceFromHistory(saved, history, learningUntil, c);
    AboutAtMostOne(Sighting(NewDevice(c.mac), Info, c.now), NewDevice(mac));
    var earlier := ClaimsBy(history, mac);
    assert earlier != [] ==> (earlier + [c])[0] == earlier[0];
  }

  /** One more claim, with what it makes the detector sight. */
  lemma NewOnesToldStep(saved: Devices, learningUntil: int, history: History, sighted: seq<Sighting>, c: Claim,
    bindings: Bindings)
    requires NewOnesTold(saved, learningUntil, history, sighted)
    ensures NewOnesTold(saved, learningUntil, history + [c],
      sighted + Appearance(MeetAll(saved, history), learningUntil, c) + Takeover(bindings, c))
  {
    hide MeetAll, Appearance, Takeover, About, FirstMet;
    var (met, taken) := (Appearance(MeetAll(saved, history), learningUntil, c), Takeover(bindings, c));
    forall mac
      ensures About(sighted + met + taken, NewDevice(mac)) == FirstMet(saved, learningUntil, history + [c], mac)
    {
      FirstMetStep(saved, learningUntil, history, c, mac);
      AboutSum(sighted + met, taken, NewDevice(mac));
      AboutSum(sighted, met, NewDevice(mac));
      TakeoverIsNoDevice(bindings, c, mac);
    }
  }

  lemma AboutAtMostOne(s: Sighting, about: Subject)
    ensures About([s], about) == if s.about == about then [s] else []
    ensures About([], about) == []
  {
    assert [s][..0] == [];
  }

  lemma TakeoverIsNoDevice(bindings: Bindings, c: Claim, mac: Mac)
    ensures About(Takeover(bindings, c), NewDevice(mac)) == []
  {
  }

  lemma RivalIsNoDevice(saved: Devices, learningUntil: int, history: History, sighted: seq<Sighting>,
    servers: Servers, o: Offer)
    requires NewOnesTold(saved, learningUntil, history, sighted)
    ensures NewOnesTold(saved, learningUntil, history, sighted + Rival(servers, o))
  {
    forall mac ensures About(sighted + Rival(servers, o), NewDevice(mac)) == About(sighted, NewDevice(mac)) {
      AboutSum(sighted, Rival(servers, o), NewDevice(mac));
      AboutAtMostOne(Sighting(SecondServer(o.server), Warn, o.now), NewDevice(mac));
    }
  }

  // ----- splitting a run ------------------------------------------------------------------

  /** Carrying the tables over from one run to the next loses nothing. */
  lemma {:induction false} TablesCompose(bindings: Bindings, known: Devices, a: History, b: History)
    ensures BindAll(bindings, a + b) == BindAll(BindAll(bindings, a), b)
    ensures MeetAll(known, a + b) == MeetAll(MeetAll(known, a), b)
    decreases |b|
  {
    hide Bind, Meet;
    if b == [] {
      assert a + b == a;
    } else {
      assert (a + b)[..|a + b| - 1] == a + b[..|b| - 1];
      TablesCompose(bindings, known, a, b[..|b| - 1]);
    }
  }

  /** Nor does it hide or invent a takeover. */
  lemma {:induction false} RunsCompose(bindings: Bindings, a: History, b: History)
    ensures Takeovers(bindings, a + b) ==
      Takeovers(bindings, a) + Takeovers(BindAll(bindings, a), b)
    decreases |b|
  {
    hide BindAll, Takeover;
    var first := Takeovers(bindings, a);
    if b == [] {
      assert a + b == a;
      assert first + [] == first;
    } else {
      var c := b[..|b| - 1];
      assert (a + b)[..|a + b| - 1] == a + c;
      RunsCompose(bindings, a, c);
      TablesCompose(bindings, map[], a, c);
      var more, last := Takeovers(BindAll(bindings, a), c), Takeover(BindAll(bindings, a + c), b[|b| - 1]);
      assert first + (more + last) == (first + more) + last;
    }
  }

  // ----- sizes ---------------------------------------------------------------------------

  function Addresses(history: History): set<Address> {
    set c | c in history :: c.ip
  }

  function Macs(history: History): set<Mac> {
    set c | c in history :: c.mac
  }

  lemma {:induction false} TablesHoldWhatIsSeen(bindings: Bindings, known: Devices, history: History)
    ensures BindAll(bindings, history).Keys == bindings.Keys + Addresses(history)
    ensures MeetAll(known, history).Keys == known.Keys + Macs(history)
    decreases |history|
  {
    if history != [] {
      var before, c := history[..|history| - 1], history[|history| - 1];
      TablesHoldWhatIsSeen(bindings, known, before);
      assert forall d :: d in history <==> d in before || d == c;
      assert Addresses(history) == Addresses(before) + {c.ip};
      assert Macs(history) == Macs(before) + {c.mac};
    }
  }

  // ----- DHCP servers --------------------------------------------------------------------

  datatype Server = Server(mac: Option<Mac>, first: int, last: int)

  type Servers = map<Address, Server>

  /** A reply of a DHCP server the detector takes notice of; the MAC is kept only where it may be a device's. */
  datatype Offer = Offer(server: Address, mac: Option<Mac>, usable: bool, now: int)

  function Serve(servers: Servers, o: Offer): Servers {
    if o.server in servers then
      var s := servers[o.server];
      servers[o.server := s.(last := o.now, mac := if o.usable then o.mac else s.mac)]
    else servers[o.server := Server(o.mac, o.now, o.now)]
  }

  /** A server not heard before, while another one has been, is announced. */
  function Rival(servers: Servers, o: Offer): seq<Sighting> {
    if o.server !in servers && servers != map[] then [Sighting(SecondServer(o.server), Warn, o.now)] else []
  }

  function ServeAll(servers: Servers, offers: seq<Offer>): Servers
    decreases |offers|
  {
    if offers == [] then servers
    else Serve(ServeAll(servers, offers[..|offers| - 1]), offers[|offers| - 1])
  }

  function Rivals(servers: Servers, offers: seq<Offer>): seq<Sighting>
    decreases |offers|
  {
    if offers == [] then []
    else
      var before := offers[..|offers| - 1];
      Rivals(servers, before) + Rival(ServeAll(servers, before), offers[|offers| - 1])
  }

  /** The replies of one server, in order. */
  function OffersOf(offers: seq<Offer>, server: Address): seq<Offer>
    decreases |offers|
  {
    if offers == [] then []
    else
      var last := offers[|offers| - 1];
      OffersOf(offers[..|offers| - 1], server) + if last.server == server then [last] else []
  }

  /** The MAC of the last reply that came with a usable one, or what it was before. */
  function LastUsable(was: Option<Mac>, heard: seq<Offer>): Option<Mac>
    decreases |heard|
  {
    if heard == [] then was
    else if heard[|heard| - 1].usable then heard[|heard| - 1].mac
    else LastUsable(was, heard[..|heard| - 1])
  }

  /** What a table says of a server that was heard, if it was. */
  ghost predicate Heard(saved: Servers, servers: Servers, heard: seq<Offer>, server: Address) {
    && (server in servers <==> server in saved || heard != [])
    && (server in servers && heard == [] ==> servers[server] == saved[server])
    && (heard != [] ==>
          && servers[server].mac == LastUsable(if server in saved then saved[server].mac else heard[0].mac, heard)
          && servers[server].first == (if server in saved then saved[server].first else heard[0].now)
          && servers[server].last == heard[|heard| - 1].now)
  }

  lemma HeardOneMore(saved: Servers, servers: Servers, heard: seq<Offer>, server: Address, o: Offer)
    requires Heard(saved, servers, heard, server)
    ensures Heard(saved, Serve(servers, o), if o.server == server then heard + [o] else heard, server)
  {
    if o.server == server {
      assert (heard + [o])[..|heard|] == heard;
      assert heard != [] ==> (heard + [o])[0] == heard[0];
    }
  }

  /** The table says of a server when it was heard first and last, and with which MAC. */
  lemma {:induction false} ServerIsHeard(saved: Servers, offers: seq<Offer>, server: Address)
    ensures Heard(saved, ServeAll(saved, offers), OffersOf(offers, server), server)
    decreases |offers|
  {
    if offers != [] {
      hide Heard, Serve;
      var before, o := offers[..|offers| - 1], offers[|offers| - 1];
      ServerIsHeard(saved, before, server);
      HeardOneMore(saved, ServeAll(saved, before), OffersOf(before, server), server, o);
      assert OffersOf(before, server) + [] == OffersOf(before, server);
    }
  }

  lemma {:induction false} ServersCompose(servers: Servers, a: seq<Offer>, b: seq<Offer>)
    ensures ServeAll(servers, a + b) == ServeAll(ServeAll(servers, a), b)
    ensures Rivals(servers, a + b) == Rivals(servers, a) + Rivals(ServeAll(servers, a), b)
    decreases |b|
  {
    hide Serve, Rival;
    var first := Rivals(servers, a);
    if b == [] {
      assert a + b == a;
      assert first + [] == first;
    } else {
      var c := b[..|b| - 1];
      assert (a + b)[..|a + b| - 1] == a + c;
      ServersCompose(servers, a, c);
      var more, last := Rivals(ServeAll(servers, a), c), Rival(ServeAll(servers, a + c), b[|b| - 1]);
      assert first + (more + last) == (first + more) + last;
    }
  }

  /** Every server but the first is announced, and as there are as many announcements as other servers, once each. */
  ghost predicate AnnouncesAllBut(first: Address, servers: Servers, rivals: seq<Sighting>) {
    && first in servers
    && |rivals| == |servers| - 1
    && (forall s <- rivals :: s.severity.Warn? && s.about.SecondServer? && s.about.ip in servers && s.about.ip != first)
    && (forall ip <- servers.Keys :: ip != first ==> exists s <- rivals :: s.about == SecondServer(ip))
  }

  lemma AnnouncesStep(first: Address, servers: Servers, rivals: seq<Sighting>, o: Offer)
    requires AnnouncesAllBut(first, servers, rivals)
    ensures AnnouncesAllBut(first, Serve(servers, o), rivals + Rival(servers, o))
  {
    var after, told := Serve(servers, o), rivals + Rival(servers, o);
    if o.server in servers {
      assert after.Keys == servers.Keys;
      assert told == rivals;
    } else {
      var s := Sighting(SecondServer(o.server), Warn, o.now);
      assert told == rivals + [s];
      assert after.Keys == servers.Keys + {o.server};
      assert s in told;
      forall ip | ip in after.Keys && ip != first ensures exists s <- told :: s.about == SecondServer(ip) {
        if ip in servers {
          var earlier :| earlier in rivals && earlier.about == SecondServer(ip);
          assert earlier in told;
        }
      }
    }
  }

  lemma {:induction false} EveryOtherServerOnce(offers: seq<Offer>)
    requires offers != []
    ensures ServeAll(map[], offers).Keys == set o | o in offers :: o.server
    ensures AnnouncesAllBut(offers[0].server, ServeAll(map[], offers), Rivals(map[], offers))
    decreases |offers|
  {
    hide Rival, AnnouncesAllBut;
    var before, o := offers[..|offers| - 1], offers[|offers| - 1];
    assert forall p :: p in offers <==> p in before || p == o;
    if before == [] {
      FirstServer(o);
      assert ServeAll(map[], before) == map[] && Rivals(map[], before) == [];
    } else {
      EveryOtherServerOnce(before);
      AnnouncesStep(before[0].server, ServeAll(map[], before), Rivals(map[], before), o);
    }
  }

  lemma FirstServer(o: Offer)
    ensures AnnouncesAllBut(o.server, Serve(map[], o), [] + Rival(map[], o))
  {
    assert Rival(map[], o) == [];
    assert Serve(map[], o) == map[o.server := Server(o.mac, o.now, o.now)];
    assert |Serve(map[], o)| == 1;
  }
}
