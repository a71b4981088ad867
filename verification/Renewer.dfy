/** The renewer daemon (src/auksd/auksdrenewer.c): which credentials a pass renews, and when passes run. */
module Renewers {
  import opened Creds
  import opened CredWire
  import opened Wire

  // ---------- one credential ----------

  /** `(int) endtime - (int) starttime` */
  function Life(c: Cred): Int32 { CastInt(CastInt(c.endtime) - CastInt(c.starttime)) }

  function Delay(c: Cred, now: int): Int32 { CastInt(c.endtime - now) }

  /** A pass that looks at `c` at time `now` goes on to renew it. */
  predicate Due(c: Cred, now: int, minLifetime: int) {
    Life(c) != 0 && Life(c) > minLifetime && 0 <= Delay(c, now) <= minLifetime
  }

  lemma {:induction false} CastDifference(a: int, b: int)
    requires -0x8000_0000 <= a - b < 0x8000_0000
    ensures CastInt(CastInt(a) - CastInt(b)) == a - b && CastInt(a - b) == a - b
  {
    var M := 0x1_0000_0000;
    Congruent(a);
    Congruent(b);
    var i, j :| CastInt(a) == a + i * M && CastInt(b) == b + j * M;
    Shifted(a - b, i - j);
    assert CastInt(a) - CastInt(b) == (a - b) + (i - j) * M;
    Shifted(a - b, 0);
  }

  lemma {:induction false} Congruent(x: int)
    ensures exists i: int :: CastInt(x) == x + i * 0x1_0000_0000
  {
    var q := x / 0x1_0000_0000;
    assert x == q * 0x1_0000_0000 + x % 0x1_0000_0000;
    if x % 0x1_0000_0000 < 0x8000_0000 {
      assert CastInt(x) == x + (-q) * 0x1_0000_0000;
    } else {
      assert CastInt(x) == x + (-q - 1) * 0x1_0000_0000;
    }
  }

  lemma {:induction false} Shifted(d: int, i: int)
    requires -0x8000_0000 <= d < 0x8000_0000
    ensures CastInt(d + i * 0x1_0000_0000) == d
  {
    var M := 0x1_0000_0000;
    var r := if d >= 0 then d else d + M;
    var q := if d >= 0 then i else i - 1;
    assert d + i * M == q * M + r;
    Remainder(q, r);
  }

  lemma {:induction false} Remainder(q: int, r: int)
    requires 0 <= r < 0x1_0000_0000
    ensures (q * 0x1_0000_0000 + r) % 0x1_0000_0000 == r
  {
  }

  /** The casts do no harm, also beyond 2038, as long as the lifetime and the distance to the end fit an int. */
  lemma {:induction false} DueMeans(c: Cred, now: int, minLifetime: nat)
    requires -0x8000_0000 <= c.endtime - c.starttime < 0x8000_0000
    requires -0x8000_0000 <= c.endtime - now < 0x8000_0000
    ensures Due(c, now, minLifetime) <==> c.endtime - c.starttime > minLifetime && 0 <= c.endtime - now <= minLifetime
  {
    CastDifference(c.endtime, c.starttime);
    CastDifference(c.endtime, now);
  }

  /** And with the casts, for any times: the lifetime and the delay are the differences modulo 2^32, as ints. */
  lemma {:induction false} DueExactly(c: Cred, now: int, minLifetime: nat, life: int, delay: int)
    requires -2147483648 <= life < 2147483648 && (c.endtime - c.starttime - life) % 4294967296 == 0
    requires -2147483648 <= delay < 2147483648 && (c.endtime - now - delay) % 4294967296 == 0
    ensures Due(c, now, minLifetime) <==> life > minLifetime && 0 <= delay <= minLifetime
  {
    var M := 4294967296;
    var i, j := (c.endtime - c.starttime - life) / M, (c.endtime - now - delay) / M;
    assert c.endtime - c.starttime == life + i * M && c.endtime - now == delay + j * M;
    Shifted(delay, j);
    Congruent(c.endtime);
    Congruent(c.starttime);
    var a :| CastInt(c.endtime) == c.endtime + a * 0x1_0000_0000;
    var b :| CastInt(c.starttime) == c.starttime + b * 0x1_0000_0000;
    assert CastInt(c.endtime) - CastInt(c.starttime) == life + (i + a - b) * M;
    Shifted(life, i + a - b);
  }

  // ---------- one pass ----------

  /** The first `n` credentials, looked at when `clock` says: those handed to `auks_cred_renew`. */
  function Tried(creds: seq<Cred>, clock: nat -> int, minLifetime: int, n: nat): seq<nat>
    requires n <= |creds|
  {
    if n == 0 then []
    else Tried(creds, clock, minLifetime, n - 1) + if Due(creds[n - 1], clock(n - 1), minLifetime) then [n - 1] else []
  }

  lemma {:induction false} TriedExactly(creds: seq<Cred>, clock: nat -> int, minLifetime: int, n: nat, i: nat)
    requires n <= |creds|
    ensures i in Tried(creds, clock, minLifetime, n) <==> i < n && Due(creds[i], clock(i), minLifetime)
  {
    hide Due;
    if n == 0 {
    } else {
      TriedExactly(creds, clock, minLifetime, n - 1, i);
    }
  }

  function CountIn(s: seq<nat>, good: nat -> bool): nat {
    if s == [] then 0 else CountIn(s[..|s| - 1], good) + if good(s[|s| - 1]) then 1 else 0
  }

  function Both(p: nat -> bool, q: nat -> bool): nat -> bool { (i: nat) => p(i) && q(i) }

  /** The loop of `renewer_main_function` over the credentials of a dump.  `clock(i)` is the time when credential
      `i` is looked at, `renews(i)` and `adds(i)` whether renewing it and sending it back work, and `stops(i)`
      whether the end flag is set before it; `seen` credentials are looked at. */
  method RenewerPass(creds: seq<Cred>, minLifetime: int, clock: nat -> int, renews: nat -> bool, adds: nat -> bool,
      stops: nat -> bool)
    returns (renewed: nat, seen: nat)
    ensures seen <= |creds| && (forall i: nat :: i < seen ==> !stops(i)) && (seen < |creds| ==> stops(seen))
    ensures renewed == |set i: nat | i < seen && Due(creds[i], clock(i), minLifetime) && renews(i) && adds(i)|
  {
    hide Life, Delay;
    renewed, seen := 0, 0;
    while seen < |creds|
      invariant seen <= |creds| && forall i: nat :: i < seen ==> !stops(i)
      invariant renewed == CountIn(Tried(creds, clock, minLifetime, seen), Both(renews, adds))
    {
      if stops(seen) {
        break;
      }
      var i := seen;
      ghost var before := Tried(creds, clock, minLifetime, i);
      assert (before + [i])[..|before|] == before && before + [] == before;
      seen := seen + 1;
      var acred := creds[i];
      var life := Life(acred);
      if life == 0 { continue; }
      if life <= minLifetime { continue; }
      var delay := Delay(acred, clock(i));
      if delay < 0 { continue; }
      if delay > minLifetime { continue; }
      if !renews(i) { continue; }
      if !adds(i) { continue; }
      renewed := renewed + 1;
    }
    CountMeaning(creds, clock, minLifetime, seen, renews, adds);
    assert SentBack(creds, clock, minLifetime, seen, renews, adds)
        == set i: nat | i < seen && Due(creds[i], clock(i), minLifetime) && renews(i) && adds(i);
  }

  ghost function SentBack(creds: seq<Cred>, clock: nat -> int, minLifetime: int, n: nat, renews: nat -> bool,
      adds: nat -> bool): set<nat>
    requires n <= |creds|
  {
    set i: nat | i < n && Due(creds[i], clock(i), minLifetime) && renews(i) && adds(i)
  }

  /** The counter is the number of credentials that are due, renewed and sent back. */
  lemma {:induction false} CountMeaning(creds: seq<Cred>, clock: nat -> int, minLifetime: int, n: nat,
      renews: nat -> bool, adds: nat -> bool)
    requires n <= |creds|
    ensures CountIn(Tried(creds, clock, minLifetime, n), Both(renews, adds))
         == |SentBack(creds, clock, minLifetime, n, renews, adds)|
  {
    hide Due, SentBack, Both;
    SentBackNext(creds, clock, minLifetime, n, renews, adds);
    if n == 0 {
    } else {
      CountMeaning(creds, clock, minLifetime, n - 1, renews, adds);
      var before := Tried(creds, clock, minLifetime, n - 1);
      assert (before + [n - 1])[..|before|] == before && before + [] == before;
    }
  }

  lemma {:induction false} SentBackNext(creds: seq<Cred>, clock: nat -> int, minLifetime: int, n: nat,
      renews: nat -> bool, adds: nat -> bool)
    requires n <= |creds|
    ensures var all := SentBack(creds, clock, minLifetime, n, renews, adds);
      if n == 0 then all == {}
      else
        var some := SentBack(creds, clock, minLifetime, n - 1, renews, adds);
        |all| == |some| + if Due(creds[n - 1], clock(n - 1), minLifetime) && Both(renews, adds)(n - 1) then 1 else 0
  {
    hide Due;
    if n > 0 {
      var all := SentBack(creds, clock, minLifetime, n, renews, adds);
      var some := SentBack(creds, clock, minLifetime, n - 1, renews, adds);
      if Due(creds[n - 1], clock(n - 1), minLifetime) && renews(n - 1) && adds(n - 1) {
        assert all == some + {n - 1};
      } else {
        assert all == some;
      }
    }
  }

  // ---------- the schedule ----------

  /** A pass as the loop of `auksd_renewer_loop` sees it. */
  datatype Pass = Pass(start: int, end: int)

  predicate Follows(p: Pass, start: int, period: int) {
    start >= p.end && start - p.start >= period && (start == p.end || start - p.start == period)
  }

  /** A pass starts when the one before has ended and a period after that one started, not earlier and not later. */
  ghost predicate Scheduled(passes: seq<Pass>, period: int) {
    && (forall k :: 0 <= k < |passes| ==> passes[k].start <= passes[k].end)
    && forall k {:trigger passes[k + 1]} :: 0 <= k < |passes| - 1 ==>
         Follows(passes[k], passes[k + 1].start, period)
  }

  /** `auksd_renewer_loop`: pass `k` takes `takes(k)` seconds, sleeps are exact, and the end flag is set by the
      end of pass `last` or in the sleep after it. */
  method RenewerLoop(period: int, now: int, takes: nat -> nat, last: nat, inSleep: bool) returns (passes: seq<Pass>)
    ensures Scheduled(passes, period) && |passes| == last + 1 && passes[0].start == now
    ensures forall k :: 0 <= k < |passes| ==> passes[k].end == passes[k].start + takes(k)
    ensures forall k {:trigger passes[k + 1]} :: 0 <= k < last ==>
      && passes[k + 1].start >= passes[k].end && passes[k + 1].start - passes[k].start >= period
      && (passes[k + 1].start == passes[k].end || passes[k + 1].start - passes[k].start == period)
  {
    passes := [];
    var clock, eof := now, false;
    while true
      invariant Scheduled(passes, period) && |passes| <= last
      invariant forall k :: 0 <= k < |passes| ==> passes[k].end == passes[k].start + takes(k)
      invariant if passes == [] then clock == now
                else passes[0].start == now && Follows(passes[|passes| - 1], clock, period)
      decreases last - |passes|
    {
      var k := |passes|;
      var atime := clock;
      var btime := atime + takes(k);
      passes := passes + [Pass(atime, btime)];
      clock := btime;
      eof := k == last && !inSleep;
      if !eof {
        var pt := btime - atime;
        pt := period - pt;
        if pt > 0 {
          clock := clock + pt;
        }
        eof := k == last;
      }
      if eof {
        return;
      }
    }
  }

  /** A pass with what it sees: the dump, when it looks at each credential, and the place of one credential. */
  datatype Look = Look(pass: Pass, creds: seq<Cred>, clock: nat -> int, at: nat)

  /** The credential is in the dump with these times and is looked at within the pass. */
  ghost predicate Seen(l: Look, starttime: int, endtime: int) {
    && l.at < |l.creds| && l.creds[l.at].starttime == starttime && l.creds[l.at].endtime == endtime
    && l.pass.start <= l.clock(l.at) <= l.pass.end
  }

  /** No pass longer than `d`: two looks at the same credential are at most the longer of
      `period + d` and `2 * d` apart. */
  lemma {:induction false} LooksClose(looks: seq<Look>, passes: seq<Pass>, period: int, d: nat, starttime: int,
      endtime: int, k: nat)
    requires Scheduled(passes, period) && |looks| == |passes| && k + 1 < |looks|
    requires looks[k].pass == passes[k] && looks[k + 1].pass == passes[k + 1]
    requires passes[k].end - passes[k].start <= d && passes[k + 1].end - passes[k + 1].start <= d
    requires Seen(looks[k], starttime, endtime) && Seen(looks[k + 1], starttime, endtime)
    ensures looks[k].clock(looks[k].at) <= looks[k + 1].clock(looks[k + 1].at)
    ensures looks[k + 1].clock(looks[k + 1].at) - looks[k].clock(looks[k].at) <= (if period >= d then period else d) + d
  {
    assert Follows(passes[k], passes[k + 1].start, period);
  }

  /** With no pass longer than `d` and both `period + d` and `2 * d` at most one second over the minimal lifetime, no
      credential slips through: one that lives longer than that lifetime, is in every dump and expires between its
      first and its last look is due at one of the looks. */
  lemma {:induction false} NeverSkipped(looks: seq<Look>, passes: seq<Pass>, period: int, d: nat, minLifetime: nat,
      starttime: int, endtime: int)
    returns (k: nat)
    requires Scheduled(passes, period) && |looks| == |passes| > 0
    requires forall k :: 0 <= k < |looks| ==>
      looks[k].pass == passes[k] && passes[k].end - passes[k].start <= d && Seen(looks[k], starttime, endtime)
    requires period + d <= minLifetime + 1 && 2 * d <= minLifetime + 1
    requires minLifetime < endtime - starttime < 0x8000_0000
    requires looks[0].clock(looks[0].at) <= endtime < looks[|looks| - 1].clock(looks[|looks| - 1].at)
    ensures k < |looks| && looks[k].at in Tried(looks[k].creds, looks[k].clock, minLifetime, |looks[k].creds|)
    ensures 0 <= endtime - looks[k].clock(looks[k].at) <= minLifetime
  {
    hide Due, Scheduled, Tried;
    k := 0;
    while looks[k + 1].clock(looks[k + 1].at) <= endtime
      invariant k + 1 < |looks| && looks[k].clock(looks[k].at) <= endtime
      decreases |looks| - k
    {
      k := k + 1;
    }
    LooksClose(looks, passes, period, d, starttime, endtime, k);
    var c := looks[k].creds[looks[k].at];
    DueMeans(c, looks[k].clock(looks[k].at), minLifetime);
    TriedExactly(looks[k].creds, looks[k].clock, minLifetime, |looks[k].creds|, looks[k].at);
  }

  /** The bound cannot be raised: whatever the period, the longest pass `d` and the time `t0`, when
      `period + d` or `2 * d` is two seconds over the minimal lifetime or more, there are two passes of the schedule
      that take `d` seconds each, the first from `t0` on, and looks within them between which a credential slips
      through. */
  lemma {:induction false} SkippedBeyond(period: int, d: nat, minLifetime: nat, t0: int, starttime: int, rest: Cred)
    returns (passes: seq<Pass>, looks: seq<Look>)
    requires minLifetime + 2 <= period + d || minLifetime + 2 <= 2 * d
    requires period + d < 0x4000_0000 && 2 * d < 0x4000_0000 && t0 - 0x4000_0000 <= starttime <= t0
    ensures Scheduled(passes, period) && |passes| == |looks| == 2 && passes[0].start == t0
    ensures forall k :: 0 <= k < 2 ==> looks[k].pass == passes[k] && passes[k].end - passes[k].start == d
    ensures var endtime := t0 + minLifetime + 1;
      && (forall k :: 0 <= k < 2 ==> looks[k].creds == [rest.(starttime := starttime, endtime := endtime)])
      && (forall k :: 0 <= k < 2 ==> Seen(looks[k], starttime, endtime))
      && minLifetime < endtime - starttime < 0x8000_0000
      && looks[0].clock(looks[0].at) <= endtime < looks[1].clock(looks[1].at)
    ensures forall k :: 0 <= k < 2 ==> looks[k].at !in Tried(looks[k].creds, looks[k].clock, minLifetime, |looks[k].creds|)
  {
    hide Due, Tried;
    var c := rest.(starttime := starttime, endtime := t0 + minLifetime + 1);
    var last := t0 + (if period >= d then period else d) + d;
    passes := [Pass(t0, t0 + d), Pass(last - d, last)];
    looks := [Look(passes[0], [c], (_: nat) => t0, 0), Look(passes[1], [c], (_: nat) => last, 0)];
    DueMeans(c, t0, minLifetime);
    DueMeans(c, last, minLifetime);
    forall k | 0 <= k < 2 ensures looks[k].at !in Tried(looks[k].creds, looks[k].clock, minLifetime, |looks[k].creds|) {
      TriedExactly(looks[k].creds, looks[k].clock, minLifetime, 1, 0);
    }
  }

  /** Such a credential can be received: at any time from 1970 to 2072, with any other contents that arrive as
      they are sent, it too arrives as it is sent. */
  lemma {:induction false} SkippedReceived(minLifetime: nat, t0: int, starttime: int, rest: Cred)
    requires minLifetime < 0x4000_0000 && 0 <= starttime <= t0 < 0xC000_0000
    requires InStruct(rest) && rest.length <= DATA_MAX && Received(rest) == rest
    ensures var c := rest.(starttime := starttime, endtime := t0 + minLifetime + 1); InStruct(c) && Received(c) == c
  {
    CRoundTripExact(rest);
    CRoundTripExact(rest.(starttime := starttime, endtime := t0 + minLifetime + 1));
  }
}
