/**
 * The timing rules of the bot as pure functions: the one-shot shield alerts, the four-tier prey
 * schedule of the tick (tazdingo.py, `notify_shield_state`), and the next-deadline listing of `$tracks`.
 */
module Expiry {
  import opened Wrappers
  import opened Records

  const Hour: int := 3600

  // ---------------------------------------------------------------- shields

  datatype ShieldEvent = Expired | Expiring

  /** The alert the tick sends for a shield at `now`: "expired" first, else "almost expired" under an hour. */
  function ShieldAlert(s: Shield, now: Time): (r: Option<ShieldEvent>)
    ensures r == Some(Expired) <==> !s.expiredNotification && s.expires < now
    ensures r == Some(Expiring) ==> !s.expiringNotification && s.expires - now < Hour
    ensures r.None? <==> (s.expiredNotification || s.expires >= now) && (s.expiringNotification || s.expires - now >= Hour)
  {
    var remaining := s.expires - now;
    if !s.expiredNotification && remaining < 0 then Some(Expired)
    else if !s.expiringNotification && remaining < Hour then Some(Expiring)
    else None
  }

  /**
   * One tick on one shield. Each flag ends up set exactly when it was set already or its deadline
   * has passed; nothing else changes, and the shield has no alert left to send at the same `now`.
   */
  function ShieldStep(s: Shield, now: Time): (r: Shield)
    ensures r == s.(expiredNotification := s.expiredNotification || s.expires < now,
                    expiringNotification := s.expiringNotification || s.expires - now < Hour)
    ensures ShieldAlert(r, now) == None
  {
    match ShieldAlert(s, now)
    case Some(Expired) => s.(expiredNotification := true, expiringNotification := true)
    case Some(Expiring) => s.(expiringNotification := true)
    case None => s
  }

  /** The shields after a tick: none is removed, each takes one step. */
  function TickShields(shields: map<UserId, Shield>, now: Time): (r: map<UserId, Shield>)
    ensures r.Keys == shields.Keys
    ensures forall u | u in r :: ShieldAlert(r[u], now) == None
    ensures forall u | u in r :: r[u].userId == shields[u].userId && r[u].expires == shields[u].expires
    ensures forall u | u in r && ShieldAlert(shields[u], now).None? :: r[u] == shields[u]
  {
    map u | u in shields :: ShieldStep(shields[u], now)
  }

  /** The users whose shield sends alert `e` at `now`. */
  function Alerted(shields: map<UserId, Shield>, now: Time, e: ShieldEvent): (r: set<UserId>)
    ensures r <= shields.Keys
    ensures e == Expired ==> forall u | u in r :: shields[u].expires < now && !shields[u].expiredNotification
    ensures e == Expiring ==> forall u | u in r :: shields[u].expires - now < Hour && !shields[u].expiringNotification
  {
    set u | u in shields && ShieldAlert(shields[u], now) == Some(e)
  }

  /** The shields `_on_notify` mentions and `_on_prune` removes: strictly past their expiry. */
  function Overdue(shields: map<UserId, Shield>, now: Time): (r: set<UserId>)
    ensures r <= shields.Keys
    ensures Alerted(shields, now, Expired) <= r
    ensures forall u | u in r && u !in Alerted(shields, now, Expired) :: shields[u].expiredNotification
  {
    assert forall u | u in Alerted(shields, now, Expired) :: ShieldAlert(shields[u], now) == Some(Expired);
    set u | u in shields && shields[u].expires < now
  }

  // ---------------------------------------------------------------- preys

  /** The four announcement tiers of a prey. */
  datatype Tier = Four | Eight | Twelve | TwentyFour

  function Hours(t: Tier): nat {
    match t
    case Four => 4
    case Eight => 8
    case Twelve => 12
    case TwentyFour => 24
  }

  /** Whether tier t of the prey was announced already (or not requested). */
  function Flag(p: Prey, t: Tier): bool {
    match t
    case Four => p.fourNotification
    case Eight => p.eightNotification
    case Twelve => p.twelveNotification
    case TwentyFour => p.twentyFourNotification
  }

  /** Every tier is done: the tick removes such a prey after announcing it. */
  predicate Finished(p: Prey) {
    forall t :: Flag(p, t)
  }

  /** Tier t is unannounced and its time has come: `now - entered >= t hours` (inclusive). */
  predicate Due(p: Prey, now: Time, t: Tier) {
    !Flag(p, t) && now - p.entered >= Hours(t) * Hour
  }

  /** The tier the tick announces: the first due one in the order 24, 12, 8, 4 — that is, the highest. */
  function FiredTier(p: Prey, now: Time): (r: Option<Tier>)
    ensures r.Some? ==> Due(p, now, r.value)
    ensures forall t :: Due(p, now, t) ==> r.Some? && Hours(t) <= Hours(r.value)
  {
    var elapsed := now - p.entered;
    if !p.twentyFourNotification && elapsed >= 24 * Hour then Some(TwentyFour)
    else if !p.twelveNotification && elapsed >= 12 * Hour then Some(Twelve)
    else if !p.eightNotification && elapsed >= 8 * Hour then Some(Eight)
    else if !p.fourNotification && elapsed >= 4 * Hour then Some(Four)
    else None
  }

  /** Announcing tier t sets its flag and the flags of all lower tiers. */
  function Raise(p: Prey, t: Tier): (r: Prey)
    ensures forall u :: Flag(r, u) == (Flag(p, u) || Hours(u) <= Hours(t))
    ensures r.userId == p.userId && r.preyName == p.preyName && r.coords == p.coords && r.entered == p.entered
  {
    match t
    case TwentyFour =>
      p.(fourNotification := true, eightNotification := true, twelveNotification := true, twentyFourNotification := true)
    case Twelve => p.(fourNotification := true, eightNotification := true, twelveNotification := true)
    case Eight => p.(fourNotification := true, eightNotification := true)
    case Four => p.(fourNotification := true)
  }

  /**
   * One tick on one prey. A tier's flag ends up set exactly when it was set already or its time has
   * come; the rest of the record is unchanged, and nothing is left to announce at the same `now`.
   */
  function PreyStep(p: Prey, now: Time): (r: Prey)
    ensures forall t :: Flag(r, t) == (Flag(p, t) || now - p.entered >= Hours(t) * Hour)
    ensures r.userId == p.userId && r.preyName == p.preyName && r.coords == p.coords && r.entered == p.entered
    ensures FiredTier(p, now).None? ==> r == p
    ensures FiredTier(r, now).None?
  {
    match FiredTier(p, now)
    case None => p
    case Some(t) => Raise(p, t)
  }

  /** The prey is announced this tick and has no tier left afterwards: the tick removes it. */
  predicate Retires(p: Prey, now: Time) {
    FiredTier(p, now).Some? && Finished(PreyStep(p, now))
  }

  /** The preys after a tick: the retiring ones are removed, every other one takes one step. */
  function TickPreys(preys: map<string, Prey>, now: Time): (r: map<string, Prey>)
    ensures r.Keys <= preys.Keys
    ensures forall n | n in r :: FiredTier(r[n], now).None?
    ensures forall n | n in r :: r[n].entered == preys[n].entered && r[n].preyName == preys[n].preyName
    ensures forall n | n in preys && FiredTier(preys[n], now).None? :: n in r && r[n] == preys[n]
  {
    map n | n in preys && !Retires(preys[n], now) :: PreyStep(preys[n], now)
  }

  /** One announcement: "<user> <prey>'s <hours> hour shield may have expired!". */
  datatype PreyAlert = PreyAlert(userId: UserId, preyName: string, tier: Tier)

  function AlertFor(p: Prey, now: Time): (r: Option<PreyAlert>)
    ensures r.Some? <==> exists t :: Due(p, now, t)
    ensures r.Some? ==> r.value.userId == p.userId && r.value.preyName == p.preyName && Due(p, now, r.value.tier)
  {
    match FiredTier(p, now)
    case None => None
    case Some(t) => Some(PreyAlert(p.userId, p.preyName, t))
  }

  /** The announcements of one tick, at most one per prey. */
  function PreyAlerts(preys: map<string, Prey>, now: Time): (r: set<PreyAlert>)
    ensures (forall n | n in preys :: FiredTier(preys[n], now).None?) ==> r == {}
    ensures forall n | n in preys && AlertFor(preys[n], now).Some? :: AlertFor(preys[n], now).value in r
  {
    set n | n in preys && AlertFor(preys[n], now).Some? :: AlertFor(preys[n], now).value
  }

  // ---------------------------------------------------------------- the `$tracks` listing

  /** The next deadline of a prey: the first tier in the order 4, 8, 12, 24 unannounced and not yet past. */
  function NextDeadline(p: Prey, now: Time): (r: Option<Tier>)
    ensures r.Some? ==> !Flag(p, r.value) && p.entered + Hours(r.value) * Hour >= now
    ensures forall t :: !Flag(p, t) && p.entered + Hours(t) * Hour >= now ==> r.Some? && Hours(r.value) <= Hours(t)
  {
    if !p.fourNotification && p.entered + 4 * Hour >= now then Some(Four)
    else if !p.eightNotification && p.entered + 8 * Hour >= now then Some(Eight)
    else if !p.twelveNotification && p.entered + 12 * Hour >= now then Some(Twelve)
    else if !p.twentyFourNotification && p.entered + 24 * Hour >= now then Some(TwentyFour)
    else None
  }

  /** One line of the listing: the time left and the prey's name. */
  datatype Track = Track(remaining: int, preyName: string)

  /**
   * The listing entry of a prey, if it has a next deadline. The time left is clamped at 0 as the code
   * does; the clamp never bites, and it is at most 24 hours for a prey entered no later than `now`.
   */
  function TrackFor(p: Prey, now: Time): (r: Option<Track>)
    ensures r.Some? <==> NextDeadline(p, now).Some?
    ensures r.Some? ==> r.value.preyName == p.preyName
    ensures r.Some? ==> r.value.remaining == p.entered + Hours(NextDeadline(p, now).value) * Hour - now
    ensures r.Some? ==> 0 <= r.value.remaining && (p.entered <= now ==> r.value.remaining <= 24 * Hour)
  {
    match NextDeadline(p, now)
    case None => None
    case Some(t) =>
      var expires := p.entered + Hours(t) * Hour;
      Some(Track(if expires - now > 0 then expires - now else 0, p.preyName))
  }

  /** The entries of all preys with a next deadline. */
  function Tracks(preys: map<string, Prey>, now: Time): (r: set<Track>)
    ensures forall tr | tr in r :: tr.remaining >= 0
    ensures forall n | n in preys && NextDeadline(preys[n], now).Some? :: TrackFor(preys[n], now).value in r
    ensures (forall n | n in preys :: NextDeadline(preys[n], now).None?) ==> r == {}
  {
    set n | n in preys && TrackFor(preys[n], now).Some? :: TrackFor(preys[n], now).value
  }

  predicate SortedByRemaining(ts: seq<Track>) {
    forall i, j :: 0 <= i < j < |ts| ==> ts[i].remaining <= ts[j].remaining
  }

  /** Puts x in front of the first entry with at least as much time left. */
  function Insert(x: Track, ts: seq<Track>): seq<Track> {
    if ts == [] || x.remaining <= ts[0].remaining then [x] + ts
    else [ts[0]] + Insert(x, ts[1..])
  }

  lemma {:induction false} InsertSorted(x: Track, ts: seq<Track>)
    requires SortedByRemaining(ts)
    ensures SortedByRemaining(Insert(x, ts))
    ensures Insert(x, ts)[0] == x || (ts != [] && Insert(x, ts)[0] == ts[0])
  {
    if ts != [] && x.remaining > ts[0].remaining {
      var tail := Insert(x, ts[1..]);
      InsertSorted(x, ts[1..]);
      assert ts[0].remaining <= tail[0].remaining;
      assert Insert(x, ts) == [ts[0]] + tail;
    }
  }

  lemma {:induction false} InsertCount(x: Track, ts: seq<Track>)
    ensures multiset(Insert(x, ts)) == multiset(ts) + multiset{x}
  {
    if ts != [] && x.remaining > ts[0].remaining {
      InsertCount(x, ts[1..]);
      assert ts == [ts[0]] + ts[1..];
    }
  }

  /** `sorted(..., key=remaining)`: ascending by time left, the same entries. */
  function SortTracks(ts: seq<Track>): (r: seq<Track>)
    ensures SortedByRemaining(r) && multiset(r) == multiset(ts)
  {
    if ts == [] then []
    else
      var rest := SortTracks(ts[1..]);
      InsertSorted(ts[0], rest);
      InsertCount(ts[0], rest);
      assert ts == [ts[0]] + ts[1..];
      Insert(ts[0], rest)
  }

  // ---------------------------------------------------------------- new records

  /**
   * `now + timedelta(seconds=seconds)` can be computed: the `timedelta` holds that many seconds and
   * the sum is still a `datetime`. Otherwise Python raises OverflowError. For a clock a `datetime`
   * can show, only the end of the calendar decides: every duration that ends by `datetime.max` is
   * also within `timedelta`'s range.
   */
  predicate ShieldFits(seconds: nat, now: Time): (r: bool)
    ensures MinTime <= now ==> (r <==> now + seconds <= MaxTime)
  {
    seconds <= MaxDelta && now + seconds <= MaxTime
  }

  /** The shield `$shield` stores: it runs `seconds` from `now`, and an alert already due is marked sent. */
  function NewShield(author: Author, seconds: nat, now: Time): (s: Shield)
    ensures s.userId == author.id && s.name == author.name && s.displayName == author.displayName
    ensures s.entered == now && s.expires == now + seconds
    ensures !s.expiredNotification && s.expiringNotification == (seconds < Hour)
    ensures ShieldAlert(s, now) == None
  {
    var expires := now + seconds;
    Shield(author.name, author.id, author.displayName, now, expires, expires < now, expires - now < Hour)
  }

  /** The reinforcement `$rein` stores. */
  function NewRein(author: Author, now: Time): (r: Reinforcement)
    ensures r.userId == author.id && r.name == author.name && r.displayName == author.displayName
    ensures r.entered == now
  {
    Reinforcement(author.name, author.id, author.displayName, now)
  }

  /** The tiers `$track` announces when the command names none. */
  const DefaultTiers: set<int> := {4, 8, 12, 24}

  /**
   * The prey `$track` stores: a tier not asked for counts as announced already. There is none when
   * no tier of 4, 8, 12 or 24 hours is asked for.
   */
  function NewPrey(userId: UserId, name: string, coords: Option<string>, tiers: set<int>, now: Time): (r: Option<Prey>)
    ensures r.None? <==> forall t :: Hours(t) !in tiers
    ensures r.Some? ==> forall t :: Flag(r.value, t) == (Hours(t) !in tiers)
    ensures r.Some? ==> r.value.userId == userId && r.value.preyName == name && r.value.coords == coords
    ensures r.Some? ==> r.value.entered == now && !Finished(r.value)
  {
    var four := 4 !in tiers;
    var eight := 8 !in tiers;
    var twelve := 12 !in tiers;
    var twentyFour := 24 !in tiers;
    if four && eight && twelve && twentyFour then
      None
    else
      var p := Prey(userId, name, coords, now, four, eight, twelve, twentyFour);
      assert Hours(Four) in tiers || Hours(Eight) in tiers || Hours(Twelve) in tiers || Hours(TwentyFour) in tiers;
      assert !(Flag(p, Four) && Flag(p, Eight) && Flag(p, Twelve) && Flag(p, TwentyFour));
      Some(p)
  }
}

/** What the timing rules promise over several ticks, and how they meet the `$tracks` listing. */
module ExpiryProperties {
  import opened Wrappers
  import opened Records
  import opened Expiry
  import Numerals
  import TimeParser
  import TimeParserProperties

  /** A second tick at the same time changes no shield and sends no shield alert. */
  lemma ShieldTickSettles(shields: map<UserId, Shield>, now: Time)
    ensures TickShields(TickShields(shields, now), now) == TickShields(shields, now)
    ensures Alerted(TickShields(shields, now), now, Expired) == {}
    ensures Alerted(TickShields(shields, now), now, Expiring) == {}
  {
    var once := TickShields(shields, now);
    forall u | u in once ensures ShieldStep(once[u], now) == once[u] {
      assert ShieldAlert(once[u], now) == None;
    }
  }

  /** Once "expired" is sent, the shield sends no alert again, whenever the next tick comes. */
  lemma ExpiredOnce(s: Shield, now: Time, later: Time)
    requires ShieldAlert(s, now) == Some(Expired)
    ensures ShieldAlert(ShieldStep(s, now), later) == None
  {
  }

  /** After "almost expired", the only alert left is "expired", sent once the shield runs out. */
  lemma AfterExpiring(s: Shield, now: Time, later: Time)
    requires ShieldAlert(s, now) == Some(Expiring)
    ensures ShieldAlert(ShieldStep(s, now), later) == if !s.expiredNotification && s.expires < later then Some(Expired) else None
  {
  }

  /** A new shield sends "expired" at any tick after its end. */
  lemma NewShieldExpires(author: Author, seconds: nat, now: Time, later: Time)
    requires later > now + seconds
    ensures ShieldAlert(NewShield(author, seconds, now), later) == Some(Expired)
  {
  }

  /** A new shield of an hour or more sends "almost expired" at a tick within its last hour. */
  lemma NewShieldWarns(author: Author, seconds: nat, now: Time, later: Time)
    requires seconds >= Hour && now + seconds - Hour < later <= now + seconds
    ensures ShieldAlert(NewShield(author, seconds, now), later) == Some(Expiring)
  {
  }

  /** `$shield 100000000` parses to 100000000 hours, which runs past the year 9999 from any clock after 1970. */
  lemma HugeShield(s: string, now: Time)
    requires s == Numerals.Show(100000000) && now >= 0
    ensures TimeParser.ParseTime(s) == Some(360000000000)
    ensures !ShieldFits(360000000000, now)
  {
    assert TimeParser.IsSimple(s) && TimeParser.SimpleDigits(s) == s;
    TimeParserProperties.BareHours(s);
  }

  /** A second tick at the same time changes no prey and announces nothing. */
  lemma PreyTickSettles(preys: map<string, Prey>, now: Time)
    ensures TickPreys(TickPreys(preys, now), now) == TickPreys(preys, now)
    ensures PreyAlerts(TickPreys(preys, now), now) == {}
  {
    var once := TickPreys(preys, now);
    forall n | n in once ensures FiredTier(once[n], now).None? {
      assert once[n] == PreyStep(preys[n], now);
    }
    assert forall n | n in once :: !Retires(once[n], now) && PreyStep(once[n], now) == once[n];
  }

  /**
   * A prey retires exactly when some tier is announced and every tier is then done: each one was
   * announced already or its time has come.
   */
  lemma RetiresExactly(p: Prey, now: Time)
    ensures Retires(p, now) <==>
      (exists t :: Due(p, now, t)) && forall t :: Flag(p, t) || now - p.entered >= Hours(t) * Hour
  {
    if Retires(p, now) {
      assert Due(p, now, FiredTier(p, now).value);
    }
  }

  /** Once a day has passed, the 24-hour tier is announced and the prey retires. */
  lemma DayRetires(p: Prey, now: Time)
    requires Due(p, now, TwentyFour)
    ensures FiredTier(p, now) == Some(TwentyFour) && Retires(p, now)
  {
    assert FiredTier(p, now).Some? && Hours(TwentyFour) <= Hours(FiredTier(p, now).value);
    var r := PreyStep(p, now);
    assert forall t :: Flag(r, t) by {
      forall t ensures Flag(r, t) {
        assert Hours(t) <= 24;
      }
    }
  }

  /** A fresh prey at 13 hours: the 12-hour tier is announced, the 24-hour one is next, 11 hours away. */
  lemma ThirteenHours(p: Prey, now: Time)
    requires forall t :: !Flag(p, t)
    requires now - p.entered == 13 * Hour
    ensures FiredTier(p, now) == Some(Twelve) && !Retires(p, now)
    ensures Flag(PreyStep(p, now), Four) && Flag(PreyStep(p, now), Eight) && Flag(PreyStep(p, now), Twelve)
    ensures !Flag(PreyStep(p, now), TwentyFour)
    ensures TrackFor(PreyStep(p, now), now) == Some(Track(11 * Hour, p.preyName))
  {
    assert !Flag(p, TwentyFour);
    var r := PreyStep(p, now);
    assert !Flag(r, TwentyFour) && Flag(r, Four) && Flag(r, Eight) && Flag(r, Twelve);
    assert NextDeadline(r, now) == Some(TwentyFour);
  }

  /** A prey with a tier left after a tick is listed by `$tracks`, with time left before it. */
  lemma ListedAfterStep(p: Prey, now: Time)
    requires !Finished(PreyStep(p, now))
    ensures TrackFor(PreyStep(p, now), now).Some?
    ensures TrackFor(PreyStep(p, now), now).value.remaining > 0
  {
    var r := PreyStep(p, now);
    var t :| !Flag(r, t);
    assert p.entered + Hours(t) * Hour > now;
    var d := NextDeadline(r, now).value;
    assert !Flag(r, d);
  }

  /** Every stored prey has a tier left: `$track` never stores a finished one, and the tick retires them. */
  predicate Unfinished(preys: map<string, Prey>) {
    forall n | n in preys :: !Finished(preys[n])
  }

  lemma TickKeepsUnfinished(preys: map<string, Prey>, now: Time)
    requires Unfinished(preys)
    ensures Unfinished(TickPreys(preys, now))
  {
    forall n | n in TickPreys(preys, now) ensures !Finished(TickPreys(preys, now)[n]) {
      if FiredTier(preys[n], now).None? {
        assert PreyStep(preys[n], now) == preys[n];
      }
    }
  }

  /** Right after a tick, `$tracks` lists every stored prey, each with time left. */
  lemma ListedAfterTick(preys: map<string, Prey>, now: Time)
    requires Unfinished(preys)
    ensures forall n | n in TickPreys(preys, now) ::
      TrackFor(TickPreys(preys, now)[n], now).Some? && TrackFor(TickPreys(preys, now)[n], now).value.remaining > 0
  {
    TickKeepsUnfinished(preys, now);
    forall n | n in TickPreys(preys, now)
      ensures TrackFor(TickPreys(preys, now)[n], now).Some? && TrackFor(TickPreys(preys, now)[n], now).value.remaining > 0
    {
      var r := TickPreys(preys, now)[n];
      assert r == PreyStep(preys[n], now);
      ListedAfterStep(preys[n], now);
    }
  }

  /** Plain `$track`: all four tiers pending, the first one four hours away. */
  lemma DefaultTrack(userId: UserId, name: string, coords: Option<string>, now: Time)
    ensures NewPrey(userId, name, coords, DefaultTiers, now).Some?
    ensures forall t :: !Flag(NewPrey(userId, name, coords, DefaultTiers, now).value, t)
    ensures TrackFor(NewPrey(userId, name, coords, DefaultTiers, now).value, now) == Some(Track(4 * Hour, name))
  {
    assert Hours(Four) in DefaultTiers;
    var p := NewPrey(userId, name, coords, DefaultTiers, now).value;
    assert !Flag(p, Four);
  }

  /** A tick keeps every deadline, so `$notify` after a tick mentions only users already alerted. */
  lemma NotifiedWereAlerted(shields: map<UserId, Shield>, now: Time)
    ensures Overdue(TickShields(shields, now), now) == Overdue(shields, now)
    ensures forall u | u in Overdue(TickShields(shields, now), now) :: TickShields(shields, now)[u].expiredNotification
  {
    var ticked := TickShields(shields, now);
    assert forall u | u in ticked :: ticked[u].expires == shields[u].expires;
  }

  /** `$prune` keeps exactly the shields not yet past their end, so a second `$prune` finds nothing. */
  lemma PruneLeavesCurrent(shields: map<UserId, Shield>, now: Time)
    ensures forall u :: u in shields - Overdue(shields, now) <==> u in shields && shields[u].expires >= now
    ensures Overdue(shields - Overdue(shields, now), now) == {}
  {
    var kept := shields - Overdue(shields, now);
    assert forall u | u in kept :: kept[u] == shields[u] && u !in Overdue(shields, now);
  }
}
