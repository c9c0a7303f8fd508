/**
Admission of bootstrap clients: a bounded number of sessions, and a history of the last attempt of
each address that is pruned, and at worst cleared, when it grows too long.
 */
module Admission {
  import opened ByteStrings

  type Ip = nat

  type Instant = nat

  type IpHistory = map<Ip, Instant>

  datatype Verdict = Admitted | NoSlot | NotAllowed | TooGreedy(last: Instant)

  /** An admitted attempt, and how many times the history had been cleared before it. */
  datatype Entry = Entry(ip: Ip, at: Instant, era: nat)

  /** Attempts of one address, admitted with no clearing between them, are more than `interval` apart. */
  ghost predicate Apart(admitted: seq<Entry>, interval: nat) {
    forall i, j :: 0 <= i < j < |admitted| && admitted[i].ip == admitted[j].ip && admitted[i].era == admitted[j].era ==>
      admitted[j].at - admitted[i].at > interval
  }

  /** The history still knows each attempt of the current era, or it has expired. */
  ghost predicate Remembers(history: IpHistory, admitted: seq<Entry>, era: nat, now: Instant, interval: nat) {
    forall e :: e in admitted ==>
      && e.at <= now && e.era <= era
      && (e.era == era ==>
            if e.ip in history then e.at <= history[e.ip] else now - e.at > interval)
  }

  /** The entries that have not expired. */
  function Recent(history: IpHistory, now: Instant, interval: nat): IpHistory {
    map ip | ip in history && now - history[ip] <= interval :: history[ip]
  }

  lemma RecentRemembers(history: IpHistory, admitted: seq<Entry>, era: nat, now: Instant, interval: nat)
    requires Remembers(history, admitted, era, now, interval)
    ensures Remembers(Recent(history, now, interval), admitted, era, now, interval)
  {
  }

  lemma LaterRemembers(history: IpHistory, admitted: seq<Entry>, era: nat, now: Instant, later: Instant, interval: nat)
    requires Remembers(history, admitted, era, now, interval) && now <= later
    ensures Remembers(history, admitted, era, later, interval)
  {
  }

  lemma ClearedRemembers(history: IpHistory, admitted: seq<Entry>, era: nat, now: Instant, interval: nat)
    requires Remembers(history, admitted, era, now, interval)
    ensures Remembers(map[], admitted, era + 1, now, interval)
  {
  }

  /** Admitting an address that is not in the history, or whose entry has expired, keeps attempts apart. */
  lemma AdmitKeepsApart(history: IpHistory, admitted: seq<Entry>, era: nat, now: Instant, interval: nat, ip: Ip)
    requires Remembers(history, admitted, era, now, interval) && Apart(admitted, interval)
    requires ip in history ==> now - history[ip] > interval
    ensures Apart(admitted + [Entry(ip, now, era)], interval)
    ensures Remembers(history[ip := now], admitted + [Entry(ip, now, era)], era, now, interval)
  {
    var more := admitted + [Entry(ip, now, era)];
    forall i, j | 0 <= i < j < |more| && more[i].ip == more[j].ip && more[i].era == more[j].era
      ensures more[j].at - more[i].at > interval
    {
      if j == |admitted| {
        assert more[i] in admitted;
      }
    }
    assert forall e :: e in more ==> e in admitted || e == Entry(ip, now, era);
  }

  class BootstrapServer {
    const maxBootstraps: nat
    const ipListMaxSize: nat
    const perIpMinInterval: nat
    var sessions: nat
    var history: IpHistory
    ghost var admitted: seq<Entry>
    ghost var era: nat
    ghost var clock: Instant

    ghost predicate Valid()
      reads this
    {
      && sessions <= maxBootstraps
      && |history| <= ipListMaxSize + 1
      && (forall ip :: ip in history ==> history[ip] <= clock)
      && Apart(admitted, perIpMinInterval)
      && Remembers(history, admitted, era, clock, perIpMinInterval)
    }

    constructor (maxBootstraps: nat, ipListMaxSize: nat, perIpMinInterval: nat)
      ensures Valid() && sessions == 0 && history == map[] && admitted == []
      ensures this.maxBootstraps == maxBootstraps && this.ipListMaxSize == ipListMaxSize
      ensures this.perIpMinInterval == perIpMinInterval
    {
      this.maxBootstraps, this.ipListMaxSize, this.perIpMinInterval := maxBootstraps, ipListMaxSize, perIpMinInterval;
      sessions, history, admitted, era, clock := 0, map[], [], 0, 0;
    }

    /** Keeps the recent entries, one by one. */
    method RetainRecent(now: Instant) returns (kept: IpHistory)
      ensures kept == Recent(history, now, perIpMinInterval)
      ensures kept.Keys == set ip | ip in history && now - history[ip] <= perIpMinInterval
      ensures forall ip :: ip in kept ==> kept[ip] == history[ip]
    {
      kept := map[];
      var rest := history.Keys;
      while rest != {}
        invariant rest <= history.Keys
        invariant forall ip :: ip in kept <==> ip in history && ip !in rest && now - history[ip] <= perIpMinInterval
        invariant forall ip :: ip in kept ==> kept[ip] == history[ip]
        decreases |rest|
      {
        var ip :| ip in rest;
        if now - history[ip] <= perIpMinInterval {
          kept := kept[ip := history[ip]];
        }
        rest := rest - {ip};
      }
    }

    /** Makes room in the history; clearing it forgets recent attempts. */
    method PruneHistory(now: Instant)
      requires Valid() && clock <= now
      modifies this`history, this`era, this`clock
      ensures Valid() && clock == now && |history| <= ipListMaxSize
      ensures |old(history)| <= ipListMaxSize ==> history == old(history) && era == old(era)
      ensures |old(history)| > ipListMaxSize ==>
                var recent := set ip | ip in old(history) && now - old(history)[ip] <= perIpMinInterval;
                if |recent| > ipListMaxSize then history == map[] && era == old(era) + 1
                else history.Keys == recent && era == old(era)
      ensures forall ip :: ip in history ==> ip in old(history) && history[ip] == old(history)[ip]
    {
      hide Recent;
      LaterRemembers(history, admitted, era, clock, now, perIpMinInterval);
      clock := now;
      if |history| > ipListMaxSize {
        RecentRemembers(history, admitted, era, now, perIpMinInterval);
        var kept := RetainRecent(now);
        history := kept;
        if |history| > ipListMaxSize {
          ClearedRemembers(history, admitted, era, now, perIpMinInterval);
          history := map[];
          era := era + 1;
        }
      }
    }

    /** Checks the last attempt of an address; a refused attempt does not renew it. */
    method GreedyClientCheck(ip: Ip, now: Instant) returns (last: Option<Instant>)
      modifies this`history
      ensures last.Some? <==> ip in old(history) && now - old(history)[ip] <= perIpMinInterval
      ensures last.Some? ==> history == old(history) && last.value == history[ip]
      ensures last.None? ==> history == old(history)[ip := now]
    {
      if ip in history && now - history[ip] <= perIpMinInterval {
        return Some(history[ip]);
      }
      history := history[ip := now];
      return None;
    }

    /** One incoming connection. */
    method Attempt(ip: Ip, now: Instant, allowed: bool) returns (verdict: Verdict)
      requires Valid() && clock <= now
      modifies this
      ensures Valid()
      ensures verdict == NoSlot <==> old(sessions) >= maxBootstraps
      ensures verdict == NotAllowed <==> old(sessions) < maxBootstraps && !allowed
      ensures verdict.NoSlot? || verdict.NotAllowed? ==> history == old(history) && era == old(era)
      ensures var recent := set x | x in old(history) && now - old(history)[x] <= perIpMinInterval;
              var cleared := |old(history)| > ipListMaxSize && |recent| > ipListMaxSize;
              && (verdict.TooGreedy? <==> old(sessions) < maxBootstraps && allowed && !cleared && ip in recent)
              && (verdict.TooGreedy? ==>
                    verdict.last == old(history)[ip] && ip in history && history[ip] == verdict.last)
              && (verdict.Admitted? ==> era == if cleared then old(era) + 1 else old(era))
      ensures verdict.Admitted? ==> ip in history && history[ip] == now
      ensures verdict.TooGreedy? || verdict.Admitted? ==>
                var recent := set x | x in old(history) && now - old(history)[x] <= perIpMinInterval;
                forall x :: x != ip ==>
                  && (x in history <==> if |old(history)| <= ipListMaxSize then x in old(history)
                                        else |recent| <= ipListMaxSize && x in recent)
                  && (x in history ==> history[x] == old(history)[x])
      ensures if verdict.Admitted?
              then sessions == old(sessions) + 1 && admitted == old(admitted) + [Entry(ip, now, era)]
              else sessions == old(sessions) && admitted == old(admitted)
    {
      hide Apart, Remembers;
      if sessions >= maxBootstraps {
        return NoSlot;
      }
      if !allowed {
        return NotAllowed;
      }
      PruneHistory(now);
      ghost var before := history;
      var last := GreedyClientCheck(ip, now);
      if last.Some? {
        return TooGreedy(last.value);
      }
      AdmitKeepsApart(before, admitted, era, now, perIpMinInterval, ip);
      admitted := admitted + [Entry(ip, now, era)];
      sessions := sessions + 1;
      return Admitted;
    }

    /** A session thread ends and drops its token. */
    method SessionEnds()
      requires Valid() && sessions > 0
      modifies this`sessions
      ensures Valid() && sessions == old(sessions) - 1
    {
      sessions := sessions - 1;
    }
  }
}
