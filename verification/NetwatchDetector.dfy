/**
 The detector of the network watch (`netwatch.py`, class `Detector`): tables of who holds which address, which devices
 and DHCP servers have been seen, and the findings, all changed in place by every observation.
 */
module NetwatchDetector {
  import opened Collections
  import opened MacAddress
  import opened NetwatchFindings
  import opened NetwatchHistory
  import opened Wrappers

  const LEARN_SECONDS := 300
  const MAX_KNOWN: nat := 2000

  // ----- which claims count --------------------------------------------------------------

  /** Six pairs of hexadecimal digits; like the pattern of the program, it lets a line end pass behind them. */
  predicate MacSyntax(mac: Mac) {
    IsMac(mac) || (|mac| == 18 && mac[17] == '\n' && IsMac(mac[..17]))
  }

  predicate InterestingMac(mac: Mac) {
    MacSyntax(mac) && mac != "00:00:00:00:00:00" && mac != "ff:ff:ff:ff:ff:ff"
  }

  /** Addresses that routers hand to each other on purpose (VRRP, HSRP). */
  predicate VirtualMac(mac: Mac) {
    "00:00:5e:00:01" <= mac || "00:00:5e:00:02" <= mac || "00:00:0c:07:ac" <= mac || "00:00:0c:9f:f" <= mac
  }

  // ----- keeping a table small -----------------------------------------------------------

  lemma {:induction false} LowestExists<K(!new)>(scores: map<K, Score>, keys: set<K>) returns (lowest: K)
    requires keys <= scores.Keys && keys != {}
    ensures lowest in keys && forall k <- keys :: scores[lowest].Leq(scores[k])
    decreases keys
  {
    var first :| first in keys;
    var rest := keys - {first};
    assert forall k <- keys :: k == first || k in rest;
    lowest := first;
    if rest != {} {
      var other := LowestExists(scores, rest);
      if !scores[first].Leq(scores[other]) {
        lowest := other;
      }
    }
  }

  /** The entries are dropped one by one, lowest first; the program drops a slice of the sorted list. */
  method Drop<K(!new, ==)>(scores: map<K, Score>, size: nat) returns (gone: set<K>)
    ensures Dropped(scores, gone, size)
  {
    gone := {};
    while |scores| - |gone| > size
      invariant gone <= scores.Keys && (|scores| - |gone| >= size || gone == {})
      invariant forall g <- gone, k <- scores.Keys - gone :: scores[g].Leq(scores[k])
    {
      assert scores.Keys - gone != {} by {
        assert |scores.Keys| == |scores|;
        SubsetSize(gone, scores.Keys);
      }
      ghost var some := LowestExists(scores, scores.Keys - gone);
      var lowest :| lowest in scores.Keys - gone && forall k <- scores.Keys - gone :: scores[lowest].Leq(scores[k]);
      gone := gone + {lowest};
    }
  }

  function BindingScores(bindings: Bindings): (scores: map<Address, Score>)
    ensures scores.Keys == bindings.Keys
  {
    map ip | ip in bindings :: Score(0, bindings[ip].last)
  }

  function DeviceScores(known: Devices): (scores: map<Mac, Score>)
    ensures scores.Keys == known.Keys
  {
    map mac | mac in known :: Score(0, known[mac].first)
  }

  /** What a table of 2,000 entries at most keeps of a larger one. */
  ghost predicate Trimmed<K(!new), V>(table: map<K, V>, kept: map<K, V>, scores: map<K, Score>) {
    && scores.Keys == table.Keys
    && kept == table - (table.Keys - kept.Keys)
    && Dropped(scores, table.Keys - kept.Keys, MAX_KNOWN)
  }

  lemma RestIsTrimmed<K(!new), V>(table: map<K, V>, gone: set<K>, scores: map<K, Score>)
    requires scores.Keys == table.Keys && Dropped(scores, gone, MAX_KNOWN)
    ensures Trimmed(table, table - gone, scores)
  {
    assert table.Keys - (table - gone).Keys == gone;
  }

  lemma TrimmedSize<K(!new), V>(table: map<K, V>, kept: map<K, V>, scores: map<K, Score>)
    requires Trimmed(table, kept, scores)
    ensures |kept| <= MAX_KNOWN && (|table| <= MAX_KNOWN ==> kept == table)
  {
    var gone := table.Keys - kept.Keys;
    assert |scores| == |scores.Keys| && |table| == |table.Keys| && |kept| == |kept.Keys|;
    assert kept.Keys == table.Keys - gone;
    assert |kept.Keys| == |table.Keys| - |gone|;
    if |table| <= MAX_KNOWN {
      assert gone == {};
      assert table - {} == table;
    }
  }

  lemma DevicesTrimmed(table: Devices, kept: Devices)
    requires Trimmed(table, kept, DeviceScores(table))
    ensures |kept| <= MAX_KNOWN
    ensures forall gone <- table.Keys - kept.Keys, left <- kept.Keys :: table[gone].first <= table[left].first
  {
    TrimmedSize(table, kept, DeviceScores(table));
    var scores := DeviceScores(table);
    forall gone, left | gone in table.Keys - kept.Keys && left in kept.Keys
      ensures table[gone].first <= table[left].first
    {
      assert left in scores.Keys - (table.Keys - kept.Keys);
      assert scores[gone].Leq(scores[left]);
    }
  }

  lemma BindingsTrimmed(table: Bindings, kept: Bindings)
    requires Trimmed(table, kept, BindingScores(table))
    ensures |kept| <= MAX_KNOWN
    ensures forall gone <- table.Keys - kept.Keys, left <- kept.Keys :: table[gone].last <= table[left].last
  {
    TrimmedSize(table, kept, BindingScores(table));
    var scores := BindingScores(table);
    forall gone, left | gone in table.Keys - kept.Keys && left in kept.Keys
      ensures table[gone].last <= table[left].last
    {
      assert left in scores.Keys - (table.Keys - kept.Keys);
      assert scores[gone].Leq(scores[left]);
    }
  }

  /** The two stages of an eviction: too many notes first, then too many findings. */
  ghost predicate InTwo(before: Findings, gone: set<Subject>, between: Findings, more: set<Subject>, after: Findings) {
    && Dropped(NoteScores(before), gone, MAX_INFO_FINDINGS) && between == before - gone
    && Dropped(FindingScores(between), more, MAX_FINDINGS) && after == between - more
  }

  lemma Between(before: Findings, gone: set<Subject>)
    requires gone <= Notes(before)
    ensures Alerts(before - gone) == Alerts(before) && Notes(before - gone) == Notes(before) - gone
  {
  }

  lemma DroppedSize<K(!new)>(scores: map<K, Score>, gone: set<K>, size: nat)
    requires Dropped(scores, gone, size)
    ensures gone <= scores.Keys && |scores.Keys - gone| == Min(|scores.Keys|, size)
  {
    assert |scores| == |scores.Keys|;
    assert |scores.Keys - gone| == |scores.Keys| - |gone|;
  }

  lemma InTwoSizes(before: Findings, gone: set<Subject>, between: Findings, more: set<Subject>, after: Findings)
    requires InTwo(before, gone, between, more, after)
    ensures |after| == Min(MAX_FINDINGS, |Alerts(before)| + Min(MAX_INFO_FINDINGS, |Notes(before)|))
    ensures |Notes(after)| <= MAX_INFO_FINDINGS
  {
    hide Notes, Alerts, NoteScores, FindingScores, Dropped;
    DroppedSize(NoteScores(before), gone, MAX_INFO_FINDINGS);
    DroppedSize(FindingScores(between), more, MAX_FINDINGS);
    Between(before, gone);
    Halves(between);
    assert after.Keys == between.Keys - more && |after| == |after.Keys| && |between| == |between.Keys|;
    NotesOfFewer(between, after);
  }

  lemma NotesOfFewer(between: Findings, after: Findings)
    requires after.Keys <= between.Keys && (forall k <- after.Keys :: after[k] == between[k])
    ensures |Notes(after)| <= |Notes(between)|
  {
    assert Notes(after) <= Notes(between);
    SubsetSize(Notes(after), Notes(between));
  }

  lemma InTwoOrder(before: Findings, gone: set<Subject>, between: Findings, more: set<Subject>, after: Findings,
    out: Subject, left: Subject)
    requires InTwo(before, gone, between, more, after)
    requires out in before && out !in after && left in after
    ensures ScoreOf(before[out]).Leq(ScoreOf(before[left]))
  {
    hide Min;
    if out in between {
      var scores := FindingScores(between);
      assert out in more && left in scores.Keys - more;
      assert scores[out].Leq(scores[left]);
    } else {
      var scores := NoteScores(before);
      assert out in gone;
      if left in scores {
        assert left in scores.Keys - gone;
        assert scores[out].Leq(scores[left]);
      }
    }
  }

  lemma InTwoKeeps(before: Findings, gone: set<Subject>, between: Findings, more: set<Subject>, after: Findings)
    requires InTwo(before, gone, between, more, after)
    ensures after.Keys <= before.Keys && forall k <- after.Keys :: after[k] == before[k]
  {
    hide Dropped;
  }

  lemma EvictedInTwo(before: Findings, gone: set<Subject>, between: Findings, more: set<Subject>, after: Findings)
    requires InTwo(before, gone, between, more, after)
    ensures Evicted(before, after)
  {
    hide InTwo, Min, ScoreOf, Notes, Alerts, Dropped, NoteScores, FindingScores;
    InTwoKeeps(before, gone, between, more, after);
    InTwoSizes(before, gone, between, more, after);
    forall out, left | out in before.Keys - after.Keys && left in after.Keys
      ensures ScoreOf(before[out]).Leq(ScoreOf(before[left]))
    {
      InTwoOrder(before, gone, between, more, after, out, left);
    }
  }

  // ----- the detector --------------------------------------------------------------------

  /** What survives a restart. */
  datatype Saved = Saved(bindings: Bindings, known: Devices, servers: Servers)

  datatype Reply = Reply(kind: string, server: Option<Address>, src: Option<Address>, eth: Option<Mac>)

  predicate Truthy(text: Option<string>) { text.Some? && text.value != "" }

  /** No more than 2,000 addresses and 2,000 devices so far. */
  ghost predicate FitsIn(base: Saved, seen: History) {
    |base.bindings.Keys + Addresses(seen)| <= MAX_KNOWN && |base.known.Keys + Macs(seen)| <= MAX_KNOWN
  }

  /** The tables and the takeovers are what the history says. */
  ghost predicate Tells(base: Saved, seen: History,
    bindings: Bindings, known: Devices, takeovers: seq<Sighting>) {
    && bindings == BindAll(base.bindings, seen)
    && known == MeetAll(base.known, seen)
    && takeovers == Takeovers(base.bindings, seen)
  }

  lemma TellsDevices(base: Saved, seen: History, bindings: Bindings, known: Devices, takeovers: seq<Sighting>)
    requires Tells(base, seen, bindings, known, takeovers)
    ensures known == MeetAll(base.known, seen)
  {
  }

  lemma FitsEarlier(base: Saved, seen: History, c: Claim)
    requires FitsIn(base, seen + [c])
    ensures FitsIn(base, seen)
  {
    assert forall d :: d in seen ==> d in seen + [c];
    SubsetSize(base.bindings.Keys + Addresses(seen), base.bindings.Keys + Addresses(seen + [c]));
    SubsetSize(base.known.Keys + Macs(seen), base.known.Keys + Macs(seen + [c]));
  }

  /** A claim keeps the tables true to the history, and as long as it fits nothing is trimmed. */
  lemma TellsStep(base: Saved, seen: History, c: Claim,
    bindings: Bindings, known: Devices, takeovers: seq<Sighting>, leftBindings: Bindings, leftKnown: Devices)
    requires FitsIn(base, seen) ==> Tells(base, seen, bindings, known, takeovers)
    requires Trimmed(Bind(bindings, c), leftBindings, BindingScores(Bind(bindings, c)))
    requires Trimmed(Meet(known, c), leftKnown, DeviceScores(Meet(known, c)))
    ensures FitsIn(base, seen + [c]) ==>
      Tells(base, seen + [c], leftBindings, leftKnown, takeovers + Takeover(bindings, c))
  {
    hide Trimmed, Bind, Meet, Takeover, Addresses, Macs;
    if FitsIn(base, seen + [c]) {
      FitsEarlier(base, seen, c);
      assert (seen + [c])[..|seen + [c]| - 1] == seen;
      TablesHoldWhatIsSeen(base.bindings, base.known, seen + [c]);
      assert |Bind(bindings, c)| == |Bind(bindings, c).Keys| && |Meet(known, c)| == |Meet(known, c).Keys|;
      TrimmedSize(Bind(bindings, c), leftBindings, BindingScores(Bind(bindings, c)));
      TrimmedSize(Meet(known, c), leftKnown, DeviceScores(Meet(known, c)));
    }
  }

  lemma AllGraded(sighted: seq<Sighting>, was: Saved, learningUntil: int, c: Claim)
    requires Graded(sighted)
    ensures Graded(sighted + Appearance(was.known, learningUntil, c) + Takeover(was.bindings, c))
  {
  }

  /** What trimming leaves is small enough and still true to the history. */
  lemma TakeKeeps(base: Saved, seen: History, c: Claim, was: Saved,
    takeovers: seq<Sighting>, sighted: seq<Sighting>, learningUntil: int, bindings: Bindings, known: Devices)
    requires FitsIn(base, seen) ==>
      Tells(base, seen, was.bindings, was.known, takeovers) && NewOnesTold(base.known, learningUntil, seen, sighted)
    requires Graded(sighted)
    requires Trimmed(Bind(was.bindings, c), bindings, BindingScores(Bind(was.bindings, c)))
    requires Trimmed(Meet(was.known, c), known, DeviceScores(Meet(was.known, c)))
    ensures FitsIn(base, seen + [c]) ==>
      && Tells(base, seen + [c], bindings, known, takeovers + Takeover(was.bindings, c))
      && NewOnesTold(base.known, learningUntil, seen + [c],
           sighted + Appearance(was.known, learningUntil, c) + Takeover(was.bindings, c))
    ensures |bindings| <= MAX_KNOWN && |known| <= MAX_KNOWN
    ensures Graded(sighted + Appearance(was.known, learningUntil, c) + Takeover(was.bindings, c))
  {
    hide FitsIn, Trimmed, Graded, Appearance, Takeover, Bind, Meet, BindAll, MeetAll, Takeovers, NewOnesTold;
    TrimmedSize(Bind(was.bindings, c), bindings, BindingScores(Bind(was.bindings, c)));
    TrimmedSize(Meet(was.known, c), known, DeviceScores(Meet(was.known, c)));
    TellsStep(base, seen, c, was.bindings, was.known, takeovers, bindings, known);
    if FitsIn(base, seen + [c]) {
      FitsEarlier(base, seen, c);
      NewOnesToldStep(base.known, learningUntil, seen, sighted, c, was.bindings);
    }
    AllGraded(sighted, was, learningUntil, c);
  }

  /** Only DHCP servers offer, acknowledge and refuse. */
  predicate ServerKind(kind: string) {
    kind == "Offer" || kind == "ACK" || kind == "NAK"
  }

  lemma OneMoreOffer(base: Servers, offers: seq<Offer>, o: Offer)
    ensures ServeAll(base, offers + [o]) == Serve(ServeAll(base, offers), o)
    ensures Rivals(base, offers + [o]) == Rivals(base, offers) + Rival(ServeAll(base, offers), o)
  {
    assert (offers + [o])[..|offers + [o]| - 1] == offers;
  }

  lemma NothingHappened(base: Saved)
    ensures RaisedAll(map[], [], map[]) && Graded([])
    ensures Tells(base, [], base.bindings, base.known, []) && forall until :: NewOnesTold(base.known, until, [], [])
    ensures ServeAll(base.servers, []) == base.servers && Rivals(base.servers, []) == []
  {
  }

  class Detector {
    /** A private unicast IPv4 address, as the `ipaddress` library tells. */
    const privateUnicast: Address -> bool
    const learningUntil: int
    var bindings: Bindings
    var known: Devices
    var servers: Servers
    var findings: Findings
    var gateway: Option<Address>
    var dirty: bool

    /** Every sighting of this detector. */
    ghost var sighted: seq<Sighting>
    /** The tables at the start, and what has happened since then. */
    ghost const origin: Saved
    ghost var seen: History
    ghost var takeovers: seq<Sighting>
    ghost var offers: seq<Offer>
    ghost var rivals: seq<Sighting>

    predicate InterestingIp(ip: Option<Address>) {
      Truthy(ip) && privateUnicast(ip.value)
    }

    /** The claims the detector takes notice of. */
    predicate Accepts(ip: Address, mac: Mac) {
      InterestingIp(Some(ip)) && InterestingMac(mac) && !VirtualMac(mac)
    }

    ghost predicate Valid()
      reads this
    {
      && RaisedAll(map[], sighted, findings)
      && Graded(sighted)
      && (FitsIn(origin, seen) ==>
            Tells(origin, seen, bindings, known, takeovers) && NewOnesTold(origin.known, learningUntil, seen, sighted))
      && servers == ServeAll(origin.servers, offers)
      && rivals == Rivals(origin.servers, offers)
    }

    ghost predicate TablesBounded()
      reads this
    {
      |bindings| <= MAX_KNOWN && |known| <= MAX_KNOWN
    }

    constructor (saved: Saved, now: int, privateUnicast: Address -> bool)
      ensures Valid() && Tables() == saved && origin == saved
      ensures findings == map[] && sighted == [] && seen == [] && offers == []
      ensures gateway == None && !dirty && this.privateUnicast == privateUnicast
      ensures learningUntil == if saved.known == map[] && saved.bindings == map[] then now + LEARN_SECONDS else now
    {
      this.privateUnicast := privateUnicast;
      bindings, known, servers := saved.bindings, saved.known, saved.servers;
      findings, gateway, dirty := map[], None, false;
      learningUntil := if saved.known == map[] && saved.bindings == map[] then now + LEARN_SECONDS else now;
      origin := saved;
      sighted, seen, takeovers, offers, rivals := [], [], [], [], [];
      new;
      hide RaisedAll, Graded, Tells, NewOnesTold, FitsIn, ServeAll, Rivals;
      NothingHappened(saved);
    }

    ghost function Tables(): Saved
      reads this
    {
      Saved(bindings, known, servers)
    }

    /** What a new detector is built from, so that it goes on where this one is. */
    method Export() returns (saved: Saved)
      ensures saved == Tables()
    {
      saved := Saved(bindings, known, servers);
    }

    /** The supervisor sets it again whenever it starts the helper; what has been learned stays. */
    method SetGateway(ip: Option<Address>)
      requires Valid()
      modifies this`gateway
      ensures Valid() && gateway == ip
    {
      hide RaisedAll, Graded, Tells, NewOnesTold, FitsIn, ServeAll, Rivals;
      gateway := ip;
    }

    method Evict()
      modifies this`findings
      ensures Evicted(old(findings), findings)
    {
      hide Evicted, Dropped, NoteScores, FindingScores;
      ghost var before := findings;
      var gone := Drop(NoteScores(findings), MAX_INFO_FINDINGS);
      findings := findings - gone;
      ghost var between := findings;
      var more := Drop(FindingScores(findings), MAX_FINDINGS);
      findings := findings - more;
      EvictedInTwo(before, gone, between, more, findings);
    }

    method Raise(about: Subject, severity: Severity, now: int)
      requires RaisedAll(map[], sighted, findings)
      modifies this`findings, this`sighted
      ensures sighted == old(sighted) + [Sighting(about, severity, now)]
      ensures Raised(old(findings), Sighting(about, severity, now), findings)
      ensures RaisedAll(map[], sighted, findings)
    {
      ghost var s, before := Sighting(about, severity, now), findings;
      if about in findings {
        findings := findings[about := Again(findings[about], now)];
      } else {
        findings := findings[about := Finding(severity, now, now, 1)];
        Evict();
      }
      assert Raised(before, s, findings);
      assert Front(sighted + [s]) == sighted;
      sighted := sighted + [s];
    }

    /** Forgets the devices met first and the addresses claimed last the longest time ago. */
    method Trim()
      modifies this`known, this`bindings
      ensures Trimmed(old(known), known, DeviceScores(old(known)))
      ensures Trimmed(old(bindings), bindings, BindingScores(old(bindings)))
      ensures |known| <= MAX_KNOWN && |bindings| <= MAX_KNOWN
      ensures forall gone <- old(known).Keys - known.Keys, kept <- known.Keys ::
        old(known)[gone].first <= old(known)[kept].first
      ensures forall gone <- old(bindings).Keys - bindings.Keys, kept <- bindings.Keys ::
        old(bindings)[gone].last <= old(bindings)[kept].last
    {
      hide Dropped;
      var devices := Drop(DeviceScores(known), MAX_KNOWN);
      RestIsTrimmed(known, devices, DeviceScores(known));
      known := known - devices;
      var addresses := Drop(BindingScores(bindings), MAX_KNOWN);
      RestIsTrimmed(bindings, addresses, BindingScores(bindings));
      bindings := bindings - addresses;
      DevicesTrimmed(old(known), known);
      BindingsTrimmed(old(bindings), bindings);
    }

    /** First half of `ObserveArp`: who is on the network. */
    method MeetDevice(ip: Address, mac: Mac, now: int)
      requires RaisedAll(map[], sighted, findings)
      modifies this`known, this`dirty, this`findings, this`sighted
      ensures known == Meet(old(known), Claim(ip, mac, now, gateway))
      ensures dirty <==> old(dirty) || mac !in old(known)
      ensures sighted == old(sighted) + Appearance(old(known), learningUntil, Claim(ip, mac, now, gateway))
      ensures RaisedAll(map[], sighted, findings)
    {
      hide RaisedAll, Raised;
      if mac !in known {
        known := known[mac := Known(now, ip)];
        dirty := true;
        if now >= learningUntil {
          Raise(NewDevice(mac), Info, now);
        }
      } else {
        known := known[mac := known[mac].(ip := ip)];
      }
    }

    /** Second half of `ObserveArp`: who holds the address. */
    method BindAddress(ip: Address, mac: Mac, now: int)
      requires RaisedAll(map[], sighted, findings)
      modifies this`bindings, this`dirty, this`findings, this`sighted
      ensures bindings == Bind(old(bindings), Claim(ip, mac, now, gateway))
      ensures dirty <==> old(dirty) || ip !in old(bindings) || old(bindings)[ip].mac != mac
      ensures sighted == old(sighted) + Takeover(old(bindings), Claim(ip, mac, now, gateway))
      ensures RaisedAll(map[], sighted, findings)
    {
      hide RaisedAll, Raised;
      if ip !in bindings {
        bindings := bindings[ip := Binding(mac, now, now)];
        dirty := true;
      } else if bindings[ip].mac == mac {
        bindings := bindings[ip := bindings[ip].(last := now)];
      } else {
        var quiet := now - bindings[ip].last;
        bindings := bindings[ip := Binding(mac, now, now)];
        dirty := true;
        if Some(ip) == gateway {
          Raise(GatewayChanged(ip, mac), Bad, now);
        } else if quiet > IDLE_BINDING_SECONDS {
          Raise(Moved(ip, mac), Info, now);
        } else {
          Raise(Conflict(ip, mac), Warn, now);
        }
      }
    }

    /** `ObserveArp` without the trimming of the tables. */
    method Learn(ip: Address, mac: Mac, now: int)
      requires RaisedAll(map[], sighted, findings)
      modifies this`bindings, this`known, this`findings, this`dirty, this`sighted
      ensures known == Meet(old(known), Claim(ip, mac, now, gateway))
      ensures bindings == Bind(old(bindings), Claim(ip, mac, now, gateway))
      ensures sighted == old(sighted) + Appearance(old(known), learningUntil, Claim(ip, mac, now, gateway))
        + Takeover(old(bindings), Claim(ip, mac, now, gateway))
      ensures dirty <==> old(dirty) || mac !in old(known) || ip !in old(bindings) || old(bindings)[ip].mac != mac
      ensures RaisedAll(map[], sighted, findings)
    {
      hide RaisedAll, Appearance, Takeover, Bind, Meet;
      MeetDevice(ip, mac, now);
      BindAddress(ip, mac, now);
    }

    /** `ObserveArp` for the claims it takes notice of. */
    method Take(ip: Address, mac: Mac, now: int)
      requires Valid()
      modifies this`bindings, this`known, this`findings, this`dirty, this`sighted, this`seen, this`takeovers
      ensures Valid() && TablesBounded()
      ensures Taken(Claim(ip, mac, now, gateway), old(Tables()), old(dirty), old(sighted), old(seen), old(takeovers))
    {
      hide RaisedAll, Graded, FitsIn, Tells, NewOnesTold, Trimmed, ServeAll, Rivals, Takeover, Appearance, Bind, Meet;
      ghost var c, was, before := Claim(ip, mac, now, gateway), Tables(), sighted;
      Learn(ip, mac, now);
      Trim();
      TakeKeeps(origin, seen, c, was, takeovers, before, learningUntil, bindings, known);
      seen, takeovers := seen + [c], takeovers + Takeover(was.bindings, c);
    }

    /** The state after a claim that counts, told from the state before it. */
    ghost predicate Taken(c: Claim, was: Saved, wasDirty: bool, sightedBefore: seq<Sighting>, seenBefore: History,
      takeoversBefore: seq<Sighting>)
      reads this
    {
      && seen == seenBefore + [c]
      && Trimmed(Bind(was.bindings, c), bindings, BindingScores(Bind(was.bindings, c)))
      && Trimmed(Meet(was.known, c), known, DeviceScores(Meet(was.known, c)))
      && takeovers == takeoversBefore + Takeover(was.bindings, c)
      && sighted == sightedBefore + Appearance(was.known, learningUntil, c) + Takeover(was.bindings, c)
      && (dirty <==> wasDirty || c.mac !in was.known || c.ip !in was.bindings || was.bindings[c.ip].mac != c.mac)
    }

    method ObserveArp(ip: Address, mac: Mac, now: int)
      requires Valid()
      modifies this`bindings, this`known, this`findings, this`dirty, this`sighted, this`seen, this`takeovers
      ensures Valid()
      ensures old(TablesBounded()) || Accepts(ip, mac) ==> TablesBounded()
      ensures Accepts(ip, mac) ==>
        Taken(Claim(ip, mac, now, gateway), old(Tables()), old(dirty), old(sighted), old(seen), old(takeovers))
      ensures Accepts(ip, mac) && FitsIn(origin, old(seen)) ==>
        sighted == old(sighted)
          + (if mac !in origin.known && ClaimsBy(old(seen), mac) == [] && now >= learningUntil
             then [Sighting(NewDevice(mac), Info, now)] else [])
          + Takeover(old(bindings), Claim(ip, mac, now, gateway))
      ensures !Accepts(ip, mac) ==>
        Tables() == old(Tables()) && findings == old(findings) && dirty == old(dirty) &&
        seen == old(seen) && sighted == old(sighted) && takeovers == old(takeovers)
    {
      hide Taken, RaisedAll, Graded, FitsIn, Tells, NewOnesTold, MacSyntax, VirtualMac;
      if !(InterestingIp(Some(ip)) && InterestingMac(mac)) {
        return;
      }
      if VirtualMac(mac) {
        return;
      }
      ghost var was := known;
      if FitsIn(origin, seen) {
        assert was == MeetAll(origin.known, seen) by { TellsDevices(origin, seen, bindings, known, takeovers); }
        AppearanceFromHistory(origin.known, seen, learningUntil, Claim(ip, mac, now, gateway));
      }
      Take(ip, mac, now);
      TakenSights(Claim(ip, mac, now, gateway), old(Tables()), old(dirty), old(sighted), old(seen), old(takeovers));
    }

    lemma TakenSights(c: Claim, was: Saved, wasDirty: bool, sightedBefore: seq<Sighting>, seenBefore: History,
      takeoversBefore: seq<Sighting>)
      requires Taken(c, was, wasDirty, sightedBefore, seenBefore, takeoversBefore)
      ensures sighted == sightedBefore + Appearance(was.known, learningUntil, c) + Takeover(was.bindings, c)
    {
    }

    /** `ObserveDhcp` for the replies it takes notice of. */
    method Answer(server: Address, mac: Option<Mac>, now: int)
      requires RaisedAll(map[], sighted, findings)
      modifies this`servers, this`findings, this`dirty, this`sighted
      ensures var o := OfferOf(server, mac, now);
        && servers == Serve(old(servers), o)
        && sighted == old(sighted) + Rival(old(servers), o)
        && (dirty <==> old(dirty) || server !in old(servers))
      ensures RaisedAll(map[], sighted, findings)
    {
      hide RaisedAll, Raised, InterestingMac;
      if server in servers {
        var heard := servers[server].(last := now);
        if Truthy(mac) && InterestingMac(mac.value) {
          heard := heard.(mac := mac);
        }
        servers := servers[server := heard];
      } else {
        var others := servers;
        servers := servers[server := Server(mac, now, now)];
        dirty := true;
        if others != map[] {
          Raise(SecondServer(server), Warn, now);
        }
      }
    }

    method ObserveDhcp(message: Reply, now: int)
      requires Valid()
      modifies this`servers, this`findings, this`dirty, this`sighted, this`offers, this`rivals
      ensures Valid()
      ensures Noticed(message).None? ==>
        servers == old(servers) && findings == old(findings) && dirty == old(dirty) && sighted == old(sighted) &&
        offers == old(offers) && rivals == old(rivals)
      ensures Noticed(message).Some? ==>
        var o := OfferOf(Noticed(message).value, message.eth, now);
        && offers == old(offers) + [o]
        && servers == Serve(old(servers), o)
        && sighted == old(sighted) + Rival(old(servers), o)
        && rivals == old(rivals) + Rival(old(servers), o)
        && (dirty <==> old(dirty) || o.server !in old(servers))
    {
      hide RaisedAll, Graded, FitsIn, Tells, NewOnesTold, InterestingMac, ServerKind, Serve, Rival, ServeAll, Rivals;
      if !ServerKind(message.kind) {
        return;
      }
      var server := if Truthy(message.server) then message.server else message.src;
      if !InterestingIp(server) {
        return;
      }
      ghost var o, was, before := OfferOf(server.value, message.eth, now), servers, sighted;
      Answer(server.value, message.eth, now);
      OneMoreOffer(origin.servers, offers, o);
      OneMoreGraded(before, was, o);
      if FitsIn(origin, seen) {
        RivalIsNoDevice(origin.known, learningUntil, seen, before, was, o);
      }
      offers, rivals := offers + [o], rivals + Rival(was, o);
    }

    /**
     The server a reply is counted for, if any: only those with a private address count, and the sender stands in for a missing server option.
     */
    function Noticed(message: Reply): (server: Option<Address>)
      ensures server.Some? ==> privateUnicast(server.value) && ServerKind(message.kind)
    {
      var server := if Truthy(message.server) then message.server else message.src;
      if ServerKind(message.kind) && InterestingIp(server) then server else None
    }
  }

  // ----- what counts ---------------------------------------------------------------------

  /** A hardware address as the program reads it: a line end behind it does not matter. */
  ghost predicate ReadsAsMac(mac: Mac) {
    IsMac(mac) || exists m: string :: IsMac(m) && mac == m + "\n"
  }

  lemma MacsThatCount(mac: Mac)
    ensures InterestingMac(mac) <==>
      ReadsAsMac(mac) && mac != "00:00:00:00:00:00" && mac != "ff:ff:ff:ff:ff:ff"
  {
    hide IsMac;
    if |mac| == 18 && mac[17] == '\n' {
      assert mac == mac[..17] + "\n";
    }
    forall m: string | IsMac(m) && mac == m + "\n" ensures MacSyntax(mac) {
      MacLength(m);
      assert mac[..17] == m;
    }
  }

  lemma MacLength(m: string)
    requires IsMac(m)
    ensures |m| == 17
  {
  }

  /**
   A claim counts when it names a private unicast address and comes from a hardware address that is neither nobody's nor
   everybody's, nor one that routers hand to each other.
   */
  lemma ClaimsThatCount(d: Detector, ip: Address, mac: Mac)
    ensures d.Accepts(ip, mac) <==>
      && ip != "" && d.privateUnicast(ip)
      && ReadsAsMac(mac) && mac != "00:00:00:00:00:00" && mac != "ff:ff:ff:ff:ff:ff"
      && !("00:00:5e:00:01" <= mac) && !("00:00:5e:00:02" <= mac)
      && !("00:00:0c:07:ac" <= mac) && !("00:00:0c:9f:f" <= mac)
  {
    hide InterestingMac, ReadsAsMac;
    MacsThatCount(mac);
  }

  /**
   A reply counts for a server when it is one that only servers send and the address, that of the server option or, where
   that is missing or empty, that of the sender, is private; its MAC is kept when it may be a device's.
   */
  lemma RepliesThatCount(d: Detector, message: Reply, server: Address, now: int)
    ensures d.Noticed(message) == Some(server) <==>
      && (message.kind == "Offer" || message.kind == "ACK" || message.kind == "NAK")
      && server != "" && d.privateUnicast(server)
      && (message.server == Some(server)
          || ((message.server == None || message.server == Some("")) && message.src == Some(server)))
    ensures var o := OfferOf(server, message.eth, now);
      && o.server == server && o.mac == message.eth && o.now == now
      && (o.usable <==>
            && message.eth.Some? && ReadsAsMac(message.eth.value)
            && message.eth.value != "00:00:00:00:00:00" && message.eth.value != "ff:ff:ff:ff:ff:ff")
  {
    hide InterestingMac, ReadsAsMac;
    if message.eth.Some? {
      MacsThatCount(message.eth.value);
      SomethingReadsAsMac(message.eth.value);
    }
  }

  lemma SomethingReadsAsMac(mac: Mac)
    ensures ReadsAsMac(mac) ==> mac != ""
  {
  }

  // ----- whole runs ----------------------------------------------------------------------

  /**
   Whatever a detector has observed, its list of findings is within both limits, and as long as it has given alerts
   about at most 200 things none of them is missing or miscounted.
   */
  lemma FindingsOfARun(d: Detector)
    requires d.Valid()
    ensures Bounded(d.findings)
    ensures |AlertedIn(d.sighted)| <= MAX_FINDINGS ==> Accounts(d.findings, d.sighted)
  {
    assert Notes(map[]) == {};
    RunsAreBounded(map[], d.sighted, d.findings);
    if |AlertedIn(d.sighted)| <= MAX_FINDINGS {
      NoAlertIsLost(d.sighted, d.findings);
    }
  }

  lemma TablesOfARun(d: Detector)
    requires d.Valid() && FitsIn(d.origin, d.seen)
    ensures d.bindings == BindAll(d.origin.bindings, d.seen) && d.known == MeetAll(d.origin.known, d.seen)
  {
    hide RaisedAll, Graded, NewOnesTold, FitsIn, BindAll, MeetAll, Takeovers, ServeAll, Rivals;
  }

  /**
   While at most 2,000 addresses and devices are seen, the tables are the history of the detector's whole life, however
   often the gateway is set: of an address the last claimant with the start and end of its run of claims, of a device
   when it was met and the address it claimed last.
   */
  lemma HoldersOfARun(d: Detector, ip: Address, mac: Mac)
    requires d.Valid() && FitsIn(d.origin, d.seen)
    ensures var claims := AllClaims(d.origin.bindings, d.seen, ip);
      (ip in d.bindings <==> claims != []) && (ip in d.bindings ==> d.bindings[ip] == HolderOf(claims))
    ensures var (saved, claims) := (d.origin.known, ClaimsBy(d.seen, mac));
      && (mac in d.known <==> mac in saved || claims != [])
      && (mac in d.known ==>
            && d.known[mac].first == (if mac in saved then saved[mac].first else claims[0].now)
            && d.known[mac].ip == (if claims == [] then saved[mac].ip else claims[|claims| - 1].ip))
  {
    hide Detector.Valid, FitsIn, BindAll, MeetAll, HolderOf, AllClaims, ClaimsBy;
    TablesOfARun(d);
    BindingIsHolder(d.origin.bindings, d.seen, ip);
    DeviceIsMet(d.origin.known, d.seen, mac);
  }

  /**
   Over the whole life of a detector, while at most 2,000 addresses and devices are seen, every device that was not saved
   and is first met when learning is over is sighted as new, exactly once and at that time; no other device ever is.
   */
  lemma NewDevicesOfARun(d: Detector, mac: Mac)
    requires d.Valid() && FitsIn(d.origin, d.seen)
    ensures var claims := ClaimsBy(d.seen, mac);
      About(d.sighted, NewDevice(mac)) ==
        if mac !in d.origin.known && claims != [] && claims[0].now >= d.learningUntil
        then [Sighting(NewDevice(mac), Info, claims[0].now)] else []
  {
    hide RaisedAll, Graded, FitsIn, Tells, ServeAll, Rivals;
  }

  /**
   A detector `d` is exported and `e` goes on from there; `f` makes the same observations, with the same gateways, in one
   life. Its tables are those of `e`, and it sights the takeovers that the two sight.
   */
  lemma RestartChangesNothing(d: Detector, e: Detector, f: Detector)
    requires d.Valid() && e.Valid() && f.Valid() && e.origin == d.Tables()
    requires f.origin == d.origin && f.seen == d.seen + e.seen && f.offers == d.offers + e.offers
    requires FitsIn(f.origin, f.seen)
    ensures f.Tables() == e.Tables()
    ensures f.takeovers == d.takeovers + e.takeovers && f.rivals == d.rivals + e.rivals
  {
    hide RaisedAll, Graded, NewOnesTold, FitsIn, BindAll, MeetAll, Takeovers, ServeAll, Rivals;
    FitsParts(d.origin, d.seen, e.seen, d.servers);
    TablesCompose(d.origin.bindings, d.origin.known, d.seen, e.seen);
    RunsCompose(d.origin.bindings, d.seen, e.seen);
    ServersCompose(d.origin.servers, d.offers, e.offers);
  }

  lemma FitsParts(base: Saved, a: History, b: History, servers: Servers)
    requires FitsIn(base, a + b)
    ensures FitsIn(base, a)
    ensures FitsIn(Saved(BindAll(base.bindings, a), MeetAll(base.known, a), servers), b)
  {
    hide Addresses, Macs, BindAll, MeetAll;
    TablesHoldWhatIsSeen(base.bindings, base.known, a);
    Parts(a, b);
    SubsetSize(base.bindings.Keys + Addresses(a), base.bindings.Keys + Addresses(a + b));
    SubsetSize(base.known.Keys + Macs(a), base.known.Keys + Macs(a + b));
    assert base.bindings.Keys + Addresses(a + b) == BindAll(base.bindings, a).Keys + Addresses(b);
    assert base.known.Keys + Macs(a + b) == MeetAll(base.known, a).Keys + Macs(b);
  }

  lemma Parts(a: History, b: History)
    ensures Addresses(a + b) == Addresses(a) + Addresses(b)
    ensures Macs(a + b) == Macs(a) + Macs(b)
  {
    assert forall c :: c in a + b <==> c in a || c in b;
  }

  function OfferOf(server: Address, mac: Option<Mac>, now: int): Offer {
    Offer(server, mac, Truthy(mac) && InterestingMac(mac.value), now)
  }

  lemma OneMoreGraded(sighted: seq<Sighting>, servers: Servers, o: Offer)
    requires Graded(sighted)
    ensures Graded(sighted + Rival(servers, o))
  {
  }
}
