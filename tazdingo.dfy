/**
 * The bot's state and the handlers that change it (tazdingo.py): the poach of shields, reinforcements
 * and tracked preys, the `$` command handlers, and one round of the background alert loop.
 * Replies are an `ok` result: true for the robot-face reaction, false for the cross mark; `$shield`,
 * which can also raise, replies with a `Reaction`.
 */
module Tazdingo {
  import opened Wrappers
  import opened Records
  import opened Expiry
  import ExpiryProperties
  import TimeParser

  /**
   * What `$shield` leaves on its message: the robot face, the cross mark, or nothing at all because
   * the handler raised.
   */
  datatype Reaction = Acked | Crossed | Raised

  /** No element occurs twice. */
  predicate Distinct<T(==)>(xs: seq<T>) {
    forall i, j | 0 <= i < j < |xs| :: xs[i] != xs[j]
  }

  lemma {:induction false} DistinctCounts<T>(xs: seq<T>)
    requires Distinct(xs)
    ensures forall x :: multiset(xs)[x] <= 1
  {
    if xs != [] {
      assert Distinct(xs[1..]) by {
        forall i, j | 0 <= i < j < |xs[1..]| ensures xs[1..][i] != xs[1..][j] {
          assert xs[1..][i] == xs[i + 1] && xs[1..][j] == xs[j + 1];
        }
      }
      DistinctCounts(xs[1..]);
      assert xs == [xs[0]] + xs[1..];
      assert xs[0] !in xs[1..];
    }
  }

  lemma CountsDistinct<T>(ys: seq<T>)
    requires forall x :: multiset(ys)[x] <= 1
    ensures Distinct(ys)
  {
    forall i, j | 0 <= i < j < |ys| ensures ys[i] != ys[j] {
      var front, back := ys[..j], ys[j..];
      assert ys == front + back;
      assert ys[i] in front && ys[j] in back;
      assert multiset(ys)[ys[i]] == multiset(front)[ys[i]] + multiset(back)[ys[i]];
    }
  }

  /** Reordering keeps a sequence free of repetitions. */
  lemma PermutedDistinct<T>(xs: seq<T>, ys: seq<T>)
    requires Distinct(xs) && multiset(ys) == multiset(xs)
    ensures Distinct(ys)
  {
    DistinctCounts(xs);
    CountsDistinct(ys);
  }

  /** A set that is not empty has an element. */
  lemma Inhabited(s: set<UserId>)
    ensures s == {} || exists x :: x in s
  {
    assert (forall x :: x !in s) ==> s == {};
  }

  ghost function Elements<T>(xs: seq<T>): set<T> {
    set x | x in xs
  }

  lemma Push<T>(xs: seq<T>, x: T)
    requires Distinct(xs) && x !in Elements(xs)
    ensures Distinct(xs + [x]) && Elements(xs + [x]) == Elements(xs) + {x}
  {
  }

  // The state of a round part-way through: the records in `done` have taken their step.

  ghost function ShieldsStepped(m: map<UserId, Shield>, done: set<UserId>, now: Time): map<UserId, Shield> {
    map u | u in m :: if u in done then ShieldStep(m[u], now) else m[u]
  }

  ghost function AlertedIn(m: map<UserId, Shield>, done: set<UserId>, now: Time, e: ShieldEvent): set<UserId> {
    set u | u in m && u in done && ShieldAlert(m[u], now) == Some(e)
  }

  ghost function PreysStepped(m: map<string, Prey>, done: set<string>, now: Time): map<string, Prey> {
    map n | n in m :: if n in done then PreyStep(m[n], now) else m[n]
  }

  ghost function AlertsIn(m: map<string, Prey>, done: set<string>, now: Time): set<PreyAlert> {
    set n | n in m && n in done && AlertFor(m[n], now).Some? :: AlertFor(m[n], now).value
  }

  ghost function RetiringIn(m: map<string, Prey>, done: set<string>, now: Time): set<string> {
    set n | n in m && n in done && Retires(m[n], now)
  }

  lemma ShieldsNext(m: map<UserId, Shield>, done: set<UserId>, u: UserId, now: Time)
    requires u in m
    ensures ShieldsStepped(m, done + {u}, now) == ShieldsStepped(m, done, now)[u := ShieldStep(m[u], now)]
    ensures forall e ::
      AlertedIn(m, done + {u}, now, e) == AlertedIn(m, done, now, e) + (if ShieldAlert(m[u], now) == Some(e) then {u} else {})
  {
  }

  lemma ShieldsDone(m: map<UserId, Shield>, now: Time)
    ensures ShieldsStepped(m, m.Keys, now) == TickShields(m, now)
    ensures forall e :: AlertedIn(m, m.Keys, now, e) == Alerted(m, now, e)
  {
  }

  lemma PreysNext(m: map<string, Prey>, done: set<string>, n: string, now: Time)
    requires n in m
    ensures PreysStepped(m, done + {n}, now) == PreysStepped(m, done, now)[n := PreyStep(m[n], now)]
    ensures AlertsIn(m, done + {n}, now) ==
      AlertsIn(m, done, now) + if AlertFor(m[n], now).Some? then {AlertFor(m[n], now).value} else {}
    ensures RetiringIn(m, done + {n}, now) == RetiringIn(m, done, now) + if Retires(m[n], now) then {n} else {}
  {
  }

  lemma PreysDone(m: map<string, Prey>, now: Time)
    ensures AlertsIn(m, m.Keys, now) == PreyAlerts(m, now)
    ensures RetiringIn(m, m.Keys, now) == set n | n in m && Retires(m[n], now)
  {
  }

  /** An announcement carries the name its prey is stored under. */
  lemma AlertsNamed(m: map<string, Prey>, done: set<string>, now: Time)
    requires forall n | n in m :: m[n].preyName == n
    ensures forall a | a in AlertsIn(m, done, now) :: a.preyName in done
  {
  }

  /** The in-memory state: shields and reinforcements by user id, preys by name. */
  class Poach {
    var shields: map<UserId, Shield>
    var reins: map<UserId, Reinforcement>
    var preys: map<string, Prey>

    /** Every record is stored under its own id or name, as the loader and the handlers store them. */
    ghost predicate Keyed()
      reads this
    {
      (forall u | u in shields :: shields[u].userId == u) &&
      (forall u | u in reins :: reins[u].userId == u) &&
      (forall n | n in preys :: preys[n].preyName == n)
    }

    /** Keyed, no user both shields and reinforces, and every prey still has a tier to announce. */
    ghost predicate Valid()
      reads this
    {
      Keyed() && shields.Keys !! reins.Keys && ExpiryProperties.Unfinished(preys)
    }

    constructor ()
      ensures shields == map[] && reins == map[] && preys == map[]
      ensures Valid()
    {
      shields := map[];
      reins := map[];
      preys := map[];
    }
  }

  /** The command handlers, working on a shared poach. */
  class Commands {
    const poach: Poach

    constructor (poach: Poach)
      ensures this.poach == poach
    {
      this.poach := poach;
    }

    /** Forgets the user's shield, if there is one. */
    method Unshield(userId: UserId)
      modifies poach
      ensures poach.shields == old(poach.shields) - {userId}
      ensures poach.reins == old(poach.reins) && poach.preys == old(poach.preys)
    {
      if userId in poach.shields {
        poach.shields := poach.shields - {userId};
      }
    }

    /** Forgets the user's reinforcement, if there is one. */
    method Recall(userId: UserId)
      modifies poach
      ensures poach.reins == old(poach.reins) - {userId}
      ensures poach.shields == old(poach.shields) && poach.preys == old(poach.preys)
    {
      if userId in poach.reins {
        poach.reins := poach.reins - {userId};
      }
    }

    /** Stops tracking the prey, if it is tracked. */
    method Lose(name: string)
      modifies poach
      ensures poach.preys == old(poach.preys) - {name}
      ensures poach.shields == old(poach.shields) && poach.reins == old(poach.reins)
    {
      if name in poach.preys {
        poach.preys := poach.preys - {name};
      }
    }

    /**
     * `$shield <time>`: replaces the author's shield and ends their reinforcement. When the expiry is
     * past what a `datetime` holds, computing it raises OverflowError before anything is changed.
     */
    method OnShield(author: Author, seconds: nat, now: Time) returns (reply: Reaction)
      modifies poach
      ensures reply == if ShieldFits(seconds, now) then Acked else Raised
      ensures reply == Acked ==> poach.shields == old(poach.shields)[author.id := NewShield(author, seconds, now)]
      ensures reply == Acked ==> poach.reins == old(poach.reins) - {author.id}
      ensures reply == Raised ==> poach.shields == old(poach.shields) && poach.reins == old(poach.reins)
      ensures poach.preys == old(poach.preys)
      ensures old(poach.Valid()) ==> poach.Valid()
    {
      if !ShieldFits(seconds, now) {
        return Raised;
      }
      var shield := NewShield(author, seconds, now);
      Unshield(author.id);
      Recall(author.id);
      poach.shields := poach.shields[shield.userId := shield];
      reply := Acked;
    }

    /**
     * The `$shield` command line: a duration the parser refuses gets the cross mark and changes
     * nothing; a parsed one goes to `OnShield`.
     */
    method ShieldCommand(author: Author, arg: string, now: Time) returns (reply: Reaction)
      modifies poach
      ensures reply == Crossed <==> TimeParser.ParseTime(arg).None?
      ensures reply == Raised <==> TimeParser.ParseTime(arg).Some? && !ShieldFits(TimeParser.ParseTime(arg).value, now)
      ensures reply == Acked ==> poach.shields == old(poach.shields)[author.id := NewShield(author, TimeParser.ParseTime(arg).value, now)]
      ensures reply == Acked ==> poach.reins == old(poach.reins) - {author.id}
      ensures reply != Acked ==> poach.shields == old(poach.shields) && poach.reins == old(poach.reins)
      ensures poach.preys == old(poach.preys)
      ensures old(poach.Valid()) ==> poach.Valid()
    {
      match TimeParser.ParseTime(arg)
      case None =>
        reply := Crossed;
      case Some(seconds) =>
        reply := OnShield(author, seconds, now);
    }

    /** `$unshield`: an error when the author has no shield. */
    method OnUnshield(author: Author) returns (ok: bool)
      modifies poach
      ensures ok == (author.id in old(poach.shields))
      ensures poach.shields == old(poach.shields) - {author.id}
      ensures poach.reins == old(poach.reins) && poach.preys == old(poach.preys)
      ensures old(poach.Valid()) ==> poach.Valid()
    {
      if author.id in poach.shields {
        Unshield(author.id);
        ok := true;
      } else {
        ok := false;
      }
    }

    /** `$rein`: ends the author's shield and (re)records the reinforcement as of now. */
    method OnRein(author: Author, now: Time) returns (ok: bool)
      modifies poach
      ensures ok
      ensures poach.shields == old(poach.shields) - {author.id}
      ensures poach.reins == old(poach.reins)[author.id := NewRein(author, now)]
      ensures poach.preys == old(poach.preys)
      ensures old(poach.Valid()) ==> poach.Valid()
    {
      var rein := NewRein(author, now);
      Unshield(author.id);
      poach.reins := poach.reins[rein.userId := rein];
      ok := true;
    }

    /** `$recall`: an error when the author does not reinforce. */
    method OnRecall(author: Author) returns (ok: bool)
      modifies poach
      ensures ok == (author.id in old(poach.reins))
      ensures poach.reins == old(poach.reins) - {author.id}
      ensures poach.shields == old(poach.shields) && poach.preys == old(poach.preys)
      ensures old(poach.Valid()) ==> poach.Valid()
    {
      if author.id in poach.reins {
        Recall(author.id);
        ok := true;
      } else {
        ok := false;
      }
    }

    /**
     * `$notify`: mentions the user id recorded in every shield past its end; an error when there is
     * none. With every shield under its own user's key these are the overdue keys.
     */
    method OnNotify(now: Time) returns (ok: bool, mentioned: set<UserId>)
      ensures ok <==> exists u :: u in poach.shields && poach.shields[u].expires < now
      ensures ok ==> mentioned == set u | u in Overdue(poach.shields, now) :: poach.shields[u].userId
      ensures ok && poach.Keyed() ==> mentioned == Overdue(poach.shields, now)
    {
      if poach.shields != map[] {
        var expired := Overdue(poach.shields, now);
        ok := expired != {};
        mentioned := set u | u in expired :: poach.shields[u].userId;
        if ok {
          Inhabited(expired);
          var u :| u in expired;
          assert u in poach.shields && poach.shields[u].expires < now;
          if poach.Keyed() {
            assert forall v | v in expired :: poach.shields[v].userId == v;
            assert forall v | v in expired :: v in mentioned;
          }
        } else {
          assert forall u | u in poach.shields && poach.shields[u].expires < now :: u in expired;
        }
      } else {
        ok, mentioned := false, {};
      }
    }

    /** `$prune`: removes every shield past its end, one by one; an error when there is none. */
    method OnPrune(now: Time) returns (ok: bool)
      modifies poach
      ensures ok <==> exists u :: u in old(poach.shields) && old(poach.shields)[u].expires < now
      ensures poach.shields == old(poach.shields) - Overdue(old(poach.shields), now)
      ensures poach.reins == old(poach.reins) && poach.preys == old(poach.preys)
      ensures old(poach.Valid()) ==> poach.Valid()
    {
      if poach.shields == map[] {
        return false;
      }
      var expired := Overdue(poach.shields, now);
      if expired == {} {
        assert forall u | u in poach.shields && poach.shields[u].expires < now :: u in expired;
        return false;
      }
      Inhabited(expired);
      var w :| w in expired;
      assert w in poach.shields && poach.shields[w].expires < now;
      ghost var start := poach.shields;
      var left := expired;
      while left != {}
        invariant left <= expired
        invariant poach.shields == start - (expired - left)
        invariant poach.reins == old(poach.reins) && poach.preys == old(poach.preys)
        decreases left
      {
        Inhabited(left);
        var u :| u in left;
        Unshield(u);
        left := left - {u};
      }
      ok := true;
    }

    /** `$track <who> [<coords>] [<tiers>]`: (re)tracks the prey; an error when no known tier is asked for. */
    method OnTrack(author: Author, name: string, coords: Option<string>, tiers: set<int>, now: Time) returns (ok: bool)
      modifies poach
      ensures ok == NewPrey(author.id, name, coords, tiers, now).Some?
      ensures ok ==> poach.preys == old(poach.preys)[name := NewPrey(author.id, name, coords, tiers, now).value]
      ensures !ok ==> poach.preys == old(poach.preys)
      ensures poach.shields == old(poach.shields) && poach.reins == old(poach.reins)
      ensures old(poach.Valid()) ==> poach.Valid()
    {
      match NewPrey(author.id, name, coords, tiers, now)
      case None =>
        ok := false;
      case Some(prey) =>
        Lose(name);
        poach.preys := poach.preys[prey.preyName := prey];
        ok := true;
    }

    /** `$lose <who>`: an error when the prey is not tracked. */
    method OnLose(name: string) returns (ok: bool)
      modifies poach
      ensures ok == (name in old(poach.preys))
      ensures poach.preys == old(poach.preys) - {name}
      ensures poach.shields == old(poach.shields) && poach.reins == old(poach.reins)
      ensures old(poach.Valid()) ==> poach.Valid()
    {
      if name in poach.preys {
        Lose(name);
        ok := true;
      } else {
        ok := false;
      }
    }

    /**
     * `$tracks`: the listing entry of every prey that has one, ascending by time left; an error when
     * no prey is tracked. Each entry occurs once when every prey is stored under its own name.
     */
    method OnTracks(now: Time) returns (ok: bool, tracks: seq<Track>)
      ensures ok == (poach.preys != map[])
      ensures SortedByRemaining(tracks)
      ensures forall x :: x in tracks <==> x in Tracks(poach.preys, now)
      ensures poach.Keyed() ==> Distinct(tracks)
    {
      if poach.preys == map[] {
        return false, [];
      }
      var expirations: seq<Track> := [];
      var todo := poach.preys.Keys;
      while todo != {}
        invariant todo <= poach.preys.Keys
        invariant forall x :: x in expirations <==>
          exists n :: n in poach.preys && n !in todo && TrackFor(poach.preys[n], now) == Some(x)
        invariant poach.Keyed() ==> forall x | x in expirations :: x.preyName !in todo
        invariant poach.Keyed() ==> Distinct(expirations)
        decreases todo
      {
        var n :| n in todo;
        match TrackFor(poach.preys[n], now) {
          case Some(x) =>
            expirations := expirations + [x];
          case None =>
        }
        todo := todo - {n};
      }
      tracks := SortTracks(expirations);
      forall x ensures x in tracks <==> x in Tracks(poach.preys, now) {
        assert x in tracks <==> x in multiset(tracks);
        assert x in expirations <==> x in multiset(expirations);
        if x in expirations {
          var n :| n in poach.preys && n !in todo && TrackFor(poach.preys[n], now) == Some(x);
          assert TrackFor(poach.preys[n], now).value == x;
        }
        if x in Tracks(poach.preys, now) {
          var n :| n in poach.preys && TrackFor(poach.preys[n], now).Some? && TrackFor(poach.preys[n], now).value == x;
          assert TrackFor(poach.preys[n], now) == Some(x);
        }
      }
      if poach.Keyed() {
        PermutedDistinct(expirations, tracks);
      }
      ok := true;
    }
  }

  /** The client's background loop, of which one round is modelled: `Tick`. */
  class Client {
    const poach: Poach
    const commands: Commands

    constructor ()
      ensures fresh(poach) && poach.Valid() && commands.poach == poach
      ensures poach.shields == map[] && poach.reins == map[] && poach.preys == map[]
    {
      var p := new Poach();
      poach := p;
      commands := new Commands(p);
    }

    /** The shield half of a round: each shield takes one step; the users to alert, in two lists. */
    method NotifyShields(now: Time) returns (expired: seq<UserId>, expiring: seq<UserId>)
      requires poach.Keyed()
      modifies poach
      ensures poach.shields == TickShields(old(poach.shields), now)
      ensures poach.reins == old(poach.reins) && poach.preys == old(poach.preys)
      ensures Distinct(expired) && forall u :: u in expired <==> u in Alerted(old(poach.shields), now, Expired)
      ensures Distinct(expiring) && forall u :: u in expiring <==> u in Alerted(old(poach.shields), now, Expiring)
    {
      var start := poach.shields;
      var shields := start;
      var todo := start.Keys;
      ghost var done := {};
      expired, expiring := [], [];
      while todo != {}
        invariant todo !! done && todo + done == start.Keys
        invariant unchanged(poach)
        invariant shields == ShieldsStepped(start, done, now)
        invariant Distinct(expired) && Elements(expired) == AlertedIn(start, done, now, Expired)
        invariant Distinct(expiring) && Elements(expiring) == AlertedIn(start, done, now, Expiring)
        decreases todo
      {
        Inhabited(todo);
        var u :| u in todo;
        ShieldsNext(start, done, u, now);
        var shield, event := CheckShield(shields[u], now);
        shields := shields[u := shield];
        if event == Some(Expired) {
          Push(expired, shield.userId);
          expired := expired + [shield.userId];
        } else if event == Some(Expiring) {
          Push(expiring, shield.userId);
          expiring := expiring + [shield.userId];
        }
        todo := todo - {u};
        done := done + {u};
      }
      ShieldsDone(start, now);
      poach.shields := shields;
    }

    /**
     * The check of one shield: "expired" first, else "almost expired"; the flags of the alert sent are
     * set. These are the statements the loop runs; `ShieldAlert` and `ShieldStep` are the same rule as
     * functions, and the ensures ties the two together.
     */
    static method CheckShield(s: Shield, now: Time) returns (r: Shield, event: Option<ShieldEvent>)
      ensures event == ShieldAlert(s, now) && r == ShieldStep(s, now)
    {
      var remaining := s.expires - now;
      r, event := s, None;
      if !s.expiredNotification && remaining < 0 {
        r := s.(expiredNotification := true, expiringNotification := true);
        event := Some(Expired);
      } else if !s.expiringNotification && remaining < Hour {
        r := s.(expiringNotification := true);
        event := Some(Expiring);
      }
    }

    /** The prey half of a round: each prey takes one step; the announcements, and the names to retire. */
    method NotifyPreys(now: Time) returns (alerts: seq<PreyAlert>, retired: seq<string>)
      requires poach.Keyed()
      modifies poach
      ensures poach.preys == map n | n in old(poach.preys) :: PreyStep(old(poach.preys)[n], now)
      ensures poach.shields == old(poach.shields) && poach.reins == old(poach.reins)
      ensures Distinct(alerts) && forall a :: a in alerts <==> a in PreyAlerts(old(poach.preys), now)
      ensures Distinct(retired) && forall n :: n in retired <==> n in old(poach.preys) && Retires(old(poach.preys)[n], now)
    {
      var start := poach.preys;
      var preys := start;
      var todo := start.Keys;
      ghost var done := {};
      alerts, retired := [], [];
      while todo != {}
        invariant todo !! done && todo + done == start.Keys
        invariant unchanged(poach)
        invariant preys == PreysStepped(start, done, now)
        invariant Distinct(alerts) && Elements(alerts) == AlertsIn(start, done, now)
        invariant Distinct(retired) && Elements(retired) == RetiringIn(start, done, now)
        decreases todo
      {
        var n := PickName(todo);
        PreysNext(start, done, n, now);
        AlertsNamed(start, done, now);
        var q, what := Announce(preys[n], now);
        if what.Some? {
          if q.fourNotification && q.eightNotification && q.twelveNotification && q.twentyFourNotification {
            Push(retired, q.preyName);
            retired := retired + [q.preyName];
          }
          Push(alerts, PreyAlert(q.userId, q.preyName, what.value));
          alerts := alerts + [PreyAlert(q.userId, q.preyName, what.value)];
          preys := preys[n := q];
        }
        todo := todo - {n};
        done := done + {n};
      }
      PreysDone(start, now);
      assert forall n :: n in retired <==> n in Elements(retired);
      poach.preys := preys;
    }

    /**
     * The cascade of one prey: tiers 24, 12, 8 and 4 in turn; the first due one is announced. These are
     * the statements the loop runs; `FiredTier`, `Raise` and `PreyStep` are the same rule as functions,
     * and the ensures ties the two together.
     */
    static method Announce(p: Prey, now: Time) returns (q: Prey, what: Option<Tier>)
      ensures what == FiredTier(p, now) && q == PreyStep(p, now)
      ensures what.Some? ==> AlertFor(p, now) == Some(PreyAlert(q.userId, q.preyName, what.value))
      ensures what.Some? ==> (Retires(p, now) <==>
        q.fourNotification && q.eightNotification && q.twelveNotification && q.twentyFourNotification)
      ensures what.None? ==> AlertFor(p, now).None? && !Retires(p, now)
    {
      var elapsed := now - p.entered;
      q, what := p, None;
      if !p.twentyFourNotification && elapsed >= 24 * Hour {
        q := p.(fourNotification := true, eightNotification := true, twelveNotification := true, twentyFourNotification := true);
        what := Some(TwentyFour);
      } else if !p.twelveNotification && elapsed >= 12 * Hour {
        q := p.(fourNotification := true, eightNotification := true, twelveNotification := true);
        what := Some(Twelve);
      } else if !p.eightNotification && elapsed >= 8 * Hour {
        q := p.(fourNotification := true, eightNotification := true);
        what := Some(Eight);
      } else if !p.fourNotification && elapsed >= 4 * Hour {
        q := p.(fourNotification := true);
        what := Some(Four);
      }
      assert Finished(q) <==> Flag(q, Four) && Flag(q, Eight) && Flag(q, Twelve) && Flag(q, TwentyFour);
    }

    static method PickName(names: set<string>) returns (n: string)
      requires names != {}
      ensures n in names
    {
      assert (forall m :: m !in names) ==> names == {};
      n :| n in names;
    }

    /** Pops every retired name from the preys. */
    method RemoveRetired(retired: seq<string>)
      modifies poach
      ensures poach.preys == map n | n in old(poach.preys) && n !in retired :: old(poach.preys)[n]
      ensures poach.shields == old(poach.shields) && poach.reins == old(poach.reins)
    {
      for i := 0 to |retired|
        invariant poach.preys == map n | n in old(poach.preys) && n !in retired[..i] :: old(poach.preys)[n]
        invariant poach.shields == old(poach.shields) && poach.reins == old(poach.reins)
      {
        assert retired[..i + 1] == retired[..i] + [retired[i]];
        if retired[i] in poach.preys {
          poach.preys := poach.preys - {retired[i]};
        }
      }
      assert retired[..|retired|] == retired;
    }

    /**
     * One round of `notify_shield_state` at time `now`: the shield alerts, the prey announcements,
     * then the removal of the preys that have no tier left.
     */
    method Tick(now: Time) returns (expired: seq<UserId>, expiring: seq<UserId>, alerts: seq<PreyAlert>)
      requires poach.Keyed()
      modifies poach
      ensures poach.shields == TickShields(old(poach.shields), now)
      ensures poach.preys == TickPreys(old(poach.preys), now)
      ensures poach.reins == old(poach.reins)
      ensures Distinct(expired) && forall u :: u in expired <==> u in Alerted(old(poach.shields), now, Expired)
      ensures Distinct(expiring) && forall u :: u in expiring <==> u in Alerted(old(poach.shields), now, Expiring)
      ensures Distinct(alerts) && forall a :: a in alerts <==> a in PreyAlerts(old(poach.preys), now)
      ensures poach.Keyed() && (old(poach.Valid()) ==> poach.Valid())
    {
      ghost var start := poach.preys;
      expired, expiring := NotifyShields(now);
      var retired;
      alerts, retired := NotifyPreys(now);
      RemoveRetired(retired);
      assert poach.preys == TickPreys(start, now);
      if old(poach.Valid()) {
        ExpiryProperties.TickKeepsUnfinished(start, now);
      }
    }
  }
}
