/** How a request reaches a daemon: the retry loops of `auks_api_request` (src/api/auks/auks_api.c) and of
    `Client::request` (rust/auks-client/src/lib.rs).  What the network and Kerberos do in the `n`th attempt is
    a parameter, for every `n`. */
module Retries {
  import opened Options
  import opened Creds
  import R = RustWire

  /** The first attempt before `limit` that passes authentication, or `limit`. */
  function FirstPast(past: nat -> bool, limit: nat): (k: nat)
    ensures k <= limit && (k < limit ==> past(k)) && forall j :: 0 <= j < k ==> !past(j)
  {
    if limit == 0 then 0
    else
      var k := FirstPast(past, limit - 1);
      if k < limit - 1 || past(limit - 1) then k else limit
  }

  lemma {:induction false} FirstPastIs(past: nat -> bool, limit: nat, k: nat)
    requires k <= limit && (k < limit ==> past(k)) && forall j :: 0 <= j < k ==> !past(j)
    ensures FirstPast(past, limit) == k
  {
  }

  /** The attempts of a request: their number, the servers they went to in order, the pauses between rounds
      and how often the payload was written. */
  datatype Trace = Trace(servers: seq<nat>, pauses: nat, writes: nat)

  /** Attempts go round the servers in order: attempt `n` to server `n` modulo their number. */
  ghost predicate RoundRobin(servers: seq<nat>, count: nat) {
    count > 0 && forall n :: 0 <= n < |servers| ==> servers[n] == n % count
  }

  /** No attempt so far has passed authentication. */
  ghost predicate SoFar(t: Trace, count: nat, past: nat -> bool) {
    RoundRobin(t.servers, count) && t.writes == 0 && forall j :: 0 <= j < |t.servers| ==> !past(j)
  }

  lemma {:induction false} SoFarNone(count: nat, past: nat -> bool)
    requires count > 0
    ensures SoFar(Trace([], 0, 0), count, past) && RoundRobin([], count)
  {
  }

  /** The next attempt, to the server whose turn it is. */
  lemma {:induction false} SoFarNext(t: Trace, count: nat, past: nat -> bool, round: nat, server: nat, limit: nat)
    requires SoFar(t, count, past) && |t.servers| == round * count + server < limit && server < count <= 2
    ensures RoundRobin(t.servers + [server], count)
    ensures if past(|t.servers|) then FirstPast(past, limit) == |t.servers| && |t.servers| / count == round
            else SoFar(t.(servers := t.servers + [server]), count, past)
  {
    Turn(round, count, server);
    if past(|t.servers|) { FirstPastIs(past, limit, |t.servers|); }
  }

  lemma {:induction false} SoFarAll(t: Trace, count: nat, past: nat -> bool, limit: nat)
    requires SoFar(t, count, past) && |t.servers| == limit
    ensures FirstPast(past, limit) == limit && t.writes == 0 && RoundRobin(t.servers, count)
    ensures limit > 0 ==> !past(limit - 1)
  {
    FirstPastIs(past, limit, limit);
  }

  lemma {:induction false} Turn(round: nat, count: nat, server: nat)
    requires server < count <= 2
    ensures (round * count + server) % count == server && (round * count + server) / count == round
  {
    if count == 2 { assert round * count + server == 2 * round + server; }
  }

  // ---------- C ----------

  const AUKS_SUCCESS := 0
  const AUKS_ERROR := -1

  type Failure = x: int | x != 0 witness -1

  datatype CStatus = Status(code: int) | EmptyRequest | ConnectionFailed

  /** After authentication a receive happens only if the send worked, and so on; 0 is success. */
  datatype CAttempt = NoConnection | NoStream(status: Failure) | NoAuth(status: Failure)
                    | Authenticated(send: int, receive: int, closeSent: bool, load: int)

  /** What the caller is told when the request ends with attempt `a`. */
  function CResult(a: CAttempt): CStatus {
    match a
    case NoConnection => ConnectionFailed
    case NoStream(status) => Status(status)
    case NoAuth(status) => Status(status)
    case Authenticated(send, receive, _, load) =>
      Status(if send != AUKS_SUCCESS then send else if receive != AUKS_SUCCESS then receive else load)
  }

  function CPast(net: nat -> CAttempt): nat -> bool { (n: nat) => net(n).Authenticated? }

  /** One attempt, from `xstream_connect` to `stream_end`: the two statuses after it. */
  method ApiAttempt(a: CAttempt) returns (fstatus: CStatus, rstatus: CStatus, writes: nat)
    ensures fstatus == Status(AUKS_SUCCESS) <==> a.Authenticated?
    ensures if a.Authenticated? then rstatus == CResult(a) && writes == 1 else fstatus == CResult(a) && writes == 0
  {
    fstatus, rstatus, writes := Status(AUKS_ERROR), Status(AUKS_ERROR), 0;
    match a
    case NoConnection => fstatus := ConnectionFailed;
    case NoStream(status) => fstatus := Status(status);
    case NoAuth(status) => fstatus := Status(status);
    case Authenticated(send, receive, _, load) =>
      writes := 1;
      rstatus := Status(send);
      if send == AUKS_SUCCESS {
        rstatus := Status(receive);
        if receive == AUKS_SUCCESS {
          rstatus := Status(load);
        }
      }
      fstatus := Status(AUKS_SUCCESS);
  }

  /** `auks_api_request` for a request of `length` packed bytes.  Attempts go to the primary and the secondary in turn,
      up to the first that authenticates; the payload is written in that one only, and the status is that of the last
      attempt: success if and only if sending, receiving and loading all work, else that of the first that does not. */
  method ApiRequest(maxRetries: int, length: nat, net: nat -> CAttempt) returns (status: CStatus, t: Trace)
    ensures forall n :: 0 <= n < |t.servers| ==> t.servers[n] == n % 2
    ensures forall n :: 0 <= n < |t.servers| - 1 ==> !net(n).Authenticated?
    ensures t.servers != [] ==> match net(|t.servers| - 1)
      case NoConnection => status == ConnectionFailed && t.writes == 0
      case NoStream(code) => status == Status(code) && t.writes == 0
      case NoAuth(code) => status == Status(code) && t.writes == 0
      case Authenticated(send, receive, _, load) =>
        && t.writes == 1
        && status == Status(if send != 0 then send else if receive != 0 then receive else load)
    ensures length == 0 ==> status == EmptyRequest && t == Trace([], 0, 0)
    ensures length > 0 ==>
      var limit := if maxRetries > 0 then 2 * maxRetries else 0;
      && |t.servers| <= limit && (|t.servers| < limit ==> t.servers != [] && net(|t.servers| - 1).Authenticated?)
      && t.pauses == (if t.servers == [] then 0 else (|t.servers| - 1) / 2)
      && (limit == 0 ==> status == Status(-1))
  {
    hide CResult, FirstPast;
    if length == 0 {
      return EmptyRequest, Trace([], 0, 0);
    }
    status, t := ApiRounds(maxRetries, net);
    CMeaning(net, if maxRetries > 0 then 2 * maxRetries else 0);
    if t.servers != [] { CResultMeaning(net(|t.servers| - 1)); }
  }

  /** The loops over the retries and the two servers. */
  method ApiRounds(maxRetries: int, net: nat -> CAttempt) returns (status: CStatus, t: Trace)
    ensures RoundRobin(t.servers, 2)
    ensures var limit := if maxRetries > 0 then 2 * maxRetries else 0;
      var k := FirstPast(CPast(net), limit);
      if k < limit then
        |t.servers| == k + 1 && t.pauses == k / 2 && t.writes == 1 && status == CResult(net(k))
      else
        |t.servers| == limit && t.writes == 0 &&
        (if limit == 0 then status == Status(AUKS_ERROR) && t.pauses == 0
         else status == CResult(net(limit - 1)) && t.pauses == maxRetries - 1)
  {
    hide CResult, SoFar, RoundRobin, FirstPast;
    ghost var past := CPast(net);
    SoFarNone(2, past);
    t := Trace([], 0, 0);
    var fstatus, rstatus := Status(AUKS_SUCCESS), Status(AUKS_ERROR);
    ghost var limit := if maxRetries > 0 then 2 * maxRetries else 0;
    var retry := 1;
    while retry <= maxRetries
      invariant 1 <= retry && if maxRetries > 0 then retry <= maxRetries + 1 else retry == 1
      invariant SoFar(t, 2, past) && t.writes == 0 && |t.servers| == 2 * (retry - 1)
      invariant t.pauses == if 1 < retry && retry > maxRetries then retry - 2 else retry - 1
      invariant if retry == 1 then fstatus == Status(AUKS_SUCCESS) && rstatus == Status(AUKS_ERROR)
                else fstatus == CResult(net(|t.servers| - 1)) != Status(AUKS_SUCCESS)
    {
      for i := 1 to 3
        invariant SoFar(t, 2, past) && t.writes == 0 && t.pauses == retry - 1 && |t.servers| == 2 * (retry - 1) + i - 1
        invariant i > 1 ==> fstatus == CResult(net(|t.servers| - 1)) != Status(AUKS_SUCCESS)
      {
        var server := if i % 2 == 1 then 0 else 1;
        SoFarNext(t, 2, past, retry - 1, server, limit);
        var writes;
        fstatus, rstatus, writes := ApiAttempt(net(|t.servers|));
        t := Trace(t.servers + [server], t.pauses, t.writes + writes);
        if fstatus == Status(AUKS_SUCCESS) {
          return rstatus, t;
        }
      }
      if retry < maxRetries {
        PauseKeeps(t, 2, past);
        t := t.(pauses := t.pauses + 1);
      }
      retry := retry + 1;
    }
    SoFarAll(t, 2, past, limit);
    status := if fstatus == Status(AUKS_SUCCESS) then rstatus else fstatus;
  }

  /** The first attempt that authenticates, on the attempts themselves. */
  lemma {:induction false} CMeaning(net: nat -> CAttempt, limit: nat)
    ensures var k := FirstPast(CPast(net), limit);
      && k <= limit && (k < limit ==> net(k).Authenticated?) && forall j :: 0 <= j < k ==> !net(j).Authenticated?
  {
    var k := FirstPast(CPast(net), limit);
    forall j | 0 <= j < k ensures !net(j).Authenticated? { assert !CPast(net)(j); }
  }

  lemma {:induction false} CResultMeaning(a: CAttempt)
    ensures CResult(a) == match a
      case NoConnection => ConnectionFailed
      case NoStream(code) => Status(code)
      case NoAuth(code) => Status(code)
      case Authenticated(send, receive, _, load) =>
        Status(if send != 0 then send else if receive != 0 then receive else load)
  {
  }

  lemma {:induction false} PauseKeeps(t: Trace, count: nat, past: nat -> bool)
    requires SoFar(t, count, past)
    ensures SoFar(t.(pauses := t.pauses + 1), count, past)
  {
  }

  // ---------- Rust ----------

  /** Errors other than those of the wire format are told apart by a number. */
  datatype Error = Other(number: int) | Proto(error: R.ProtoError) | NoServers

  /** What happens in one attempt.  `early` are the fallible steps before the connection (`before`), the
      addresses to connect to, and the steps from the Kerberos context to `sendauth` (`after`); `None` is a
      step that works. */
  datatype Net = Net(before: Option<Error>, addresses: seq<Option<Error>>, after: Option<Error>,
                     dummyAddrs: Option<Error>, mkPriv: Option<Error>, write: Option<Error>,
                     read: Option<Error>, rdPriv: R.Result<seq<byte>, Error>)

  datatype AttemptResult = Reply(message: R.Message) | Retry(error: Error) | Return(error: Error)

  const ADDR_NOT_AVAILABLE := Other(0)

  /** The connect loop finds an address. */
  predicate Connects(addresses: seq<Option<Error>>) { exists i :: 0 <= i < |addresses| && addresses[i].None? }

  predicate Authenticates(a: Net) { a.before.None? && Connects(a.addresses) && a.after.None? }

  /** The outcome of an attempt; its error is that of the step that failed. */
  function Attempted(a: Net, nat_: bool): AttemptResult {
    if a.before.Some? then Retry(a.before.value)
    else if !Connects(a.addresses) then Retry(LastError(a.addresses))
    else if a.after.Some? then Retry(a.after.value)
    else if nat_ && a.dummyAddrs.Some? then Return(a.dummyAddrs.value)
    else if a.mkPriv.Some? then Return(a.mkPriv.value)
    else if a.write.Some? then Return(a.write.value)
    else if a.read.Some? then Return(a.read.value)
    else if a.rdPriv.Err? then Return(a.rdPriv.error)
    else match R.Decoding(a.rdPriv.value) case Ok(m) => Reply(m) case Err(e) => Return(Proto(e))
  }

  function LastError(addresses: seq<Option<Error>>): Error {
    if addresses == [] || addresses[|addresses| - 1].None? then ADDR_NOT_AVAILABLE else addresses[|addresses| - 1].value
  }

  /** `try_request`; `nat_` is the configured flag.  Nothing has been written when the result allows a retry. */
  method TryRequest(a: Net, nat_: bool) returns (r: AttemptResult, writes: nat)
    ensures Authenticates(a) <==> !r.Retry?
    ensures writes <= 1 && (writes == 1 <==> Authenticates(a) && (nat_ ==> a.dummyAddrs.None?) && a.mkPriv.None?)
    ensures r == Attempted(a, nat_)
  {
    writes := 0;
    if a.before.Some? { return Retry(a.before.value), 0; }
    var stream, lastError: Option<Error> := false, None;
    for i := 0 to |a.addresses|
      invariant !stream && (forall j :: 0 <= j < i ==> a.addresses[j].Some?)
      invariant lastError == if i == 0 then None else a.addresses[i - 1]
    {
      match a.addresses[i]
      case None => stream := true; break;
      case Some(e) => lastError := Some(e);
    }
    if !stream {
      return Retry(if lastError.Some? then lastError.value else ADDR_NOT_AVAILABLE), 0;
    }
    if a.after.Some? { return Retry(a.after.value), 0; }
    if nat_ {
      if a.dummyAddrs.Some? { return Return(a.dummyAddrs.value), 0; }
    }
    if a.mkPriv.Some? { return Return(a.mkPriv.value), 0; }
    writes := 1;
    if a.write.Some? { return Return(a.write.value), 1; }
    if a.read.Some? { return Return(a.read.value), 1; }
    if a.rdPriv.Err? { return Return(a.rdPriv.error), 1; }
    var reply := R.Decode(a.rdPriv.value);
    r := match reply case Ok(m) => Reply(m) case Err(e) => Return(Proto(e));
  }

  function RustPast(net: nat -> Net): nat -> bool { (n: nat) => Authenticates(net(n)) }

  function Written(a: Net, nat_: bool): nat {
    if Authenticates(a) && (nat_ ==> a.dummyAddrs.None?) && a.mkPriv.None? then 1 else 0
  }

  /** The first attempt that authenticates, on what happens in the attempts. */
  lemma {:induction false} RustMeaning(net: nat -> Net, limit: nat, j: nat)
    ensures var k := FirstPast(RustPast(net), limit);
      && k <= limit
      && (k < limit ==>
            && net(k).before.None? && net(k).after.None?
            && exists i :: 0 <= i < |net(k).addresses| && net(k).addresses[i].None?)
      && (j < k ==>
            || net(j).before.Some? || net(j).after.Some?
            || forall i :: 0 <= i < |net(j).addresses| ==> net(j).addresses[i].Some?)
  {
    var k := FirstPast(RustPast(net), limit);
    if j < k { assert !RustPast(net)(j); }
  }

  /** The result of an attempt, on what happens in it: the error of the first step that fails, and when none does the
      message the reply encodes.  The steps up to the authentication allow a retry. */
  lemma {:induction false} AttemptMeaning(a: Net, nat_: bool)
    ensures a.before.Some? ==> Attempted(a, nat_) == Retry(a.before.value)
    ensures a.before.None? && (forall i :: 0 <= i < |a.addresses| ==> a.addresses[i].Some?) ==>
      Attempted(a, nat_) == Retry(if a.addresses == [] then ADDR_NOT_AVAILABLE else a.addresses[|a.addresses| - 1].value)
    ensures a.before.None? && (exists i :: 0 <= i < |a.addresses| && a.addresses[i].None?) ==>
      if a.after.Some? then Attempted(a, nat_) == Retry(a.after.value)
      else if nat_ && a.dummyAddrs.Some? then Attempted(a, nat_) == Return(a.dummyAddrs.value)
      else if a.mkPriv.Some? then Attempted(a, nat_) == Return(a.mkPriv.value)
      else if a.write.Some? then Attempted(a, nat_) == Return(a.write.value)
      else if a.read.Some? then Attempted(a, nat_) == Return(a.read.value)
      else match a.rdPriv
        case Err(e) => Attempted(a, nat_) == Return(e)
        case Ok(data) =>
          && (R.Decoding(data).Err? ==> Attempted(a, nat_) == Return(Proto(R.Decoding(data).error)))
          && forall m :: data == R.Encoding(m) && |m.body| <= 67108864 ==> Attempted(a, nat_) == Reply(m)
  {
    hide R.Decoding, R.Encoding;
    if a.rdPriv.Ok? {
      forall m | a.rdPriv.value == R.Encoding(m) && |m.body| <= 67108864 ensures R.Decoding(a.rdPriv.value) == R.Ok(m) {
        R.EncodeDecode(m);
      }
    }
  }

  lemma {:induction false} ResultMeaning(a: Net, nat_: bool, r: R.Result<R.Message, Error>)
    requires r == match Attempted(a, nat_) case Reply(m) => R.Ok(m) case Retry(e) => R.Err(e) case Return(e) => R.Err(e)
    ensures
      if a.before.Some? then r == R.Err(a.before.value)
      else if forall i :: 0 <= i < |a.addresses| ==> a.addresses[i].Some? then
        r == R.Err(if a.addresses == [] then ADDR_NOT_AVAILABLE else a.addresses[|a.addresses| - 1].value)
      else if a.after.Some? then r == R.Err(a.after.value)
      else if nat_ && a.dummyAddrs.Some? then r == R.Err(a.dummyAddrs.value)
      else if a.mkPriv.Some? then r == R.Err(a.mkPriv.value)
      else if a.write.Some? then r == R.Err(a.write.value)
      else if a.read.Some? then r == R.Err(a.read.value)
      else match a.rdPriv
        case Err(e) => r == R.Err(e)
        case Ok(data) =>
          && (R.Decoding(data).Err? ==> r == R.Err(Proto(R.Decoding(data).error)))
          && forall m :: data == R.Encoding(m) && |m.body| <= 67108864 ==> r == R.Ok(m)
  {
    hide Attempted, R.Decoding, R.Encoding;
    AttemptMeaning(a, nat_);
  }

  /** `Client::request` with `servers` configured servers, the primary and perhaps a secondary.  Attempts go to them in
      turn, up to the first that authenticates.  The result is that of the last attempt: the error of its first step
      that fails, and when none does the message that its reply encodes. */
  method Request(retries: nat, servers: nat, nat_: bool, net: nat -> Net)
    returns (r: R.Result<R.Message, Error>, t: Trace)
    requires servers == 1 || servers == 2
    ensures var limit := (if retries > 1 then retries else 1) * servers;
      && 1 <= |t.servers| <= limit && (forall n :: 0 <= n < |t.servers| ==> t.servers[n] == n % servers)
      && t.pauses == (|t.servers| - 1) / servers
    ensures forall n :: 0 <= n < |t.servers| - 1 ==>
      net(n).before.Some? || net(n).after.Some? || forall i :: 0 <= i < |net(n).addresses| ==> net(n).addresses[i].Some?
    ensures var limit, a := (if retries > 1 then retries else 1) * servers, net(|t.servers| - 1);
      var connects := exists i :: 0 <= i < |a.addresses| && a.addresses[i].None?;
      && (|t.servers| < limit ==> a.before.None? && connects && a.after.None?)
      && t.writes == if a.before.None? && connects && a.after.None? && !(nat_ && a.dummyAddrs.Some?) && a.mkPriv.None?
                     then 1 else 0
    ensures var a := net(|t.servers| - 1);
      if a.before.Some? then r == R.Err(a.before.value)
      else if forall i :: 0 <= i < |a.addresses| ==> a.addresses[i].Some? then
        r == R.Err(if a.addresses == [] then ADDR_NOT_AVAILABLE else a.addresses[|a.addresses| - 1].value)
      else if a.after.Some? then r == R.Err(a.after.value)
      else if nat_ && a.dummyAddrs.Some? then r == R.Err(a.dummyAddrs.value)
      else if a.mkPriv.Some? then r == R.Err(a.mkPriv.value)
      else if a.write.Some? then r == R.Err(a.write.value)
      else if a.read.Some? then r == R.Err(a.read.value)
      else match a.rdPriv
        case Err(e) => r == R.Err(e)
        case Ok(data) =>
          && (R.Decoding(data).Err? ==> r == R.Err(Proto(R.Decoding(data).error)))
          && forall m :: data == R.Encoding(m) && |m.body| <= 67108864 ==> r == R.Ok(m)
  {
    hide Attempted, FirstPast, R.Decoding, R.Encoding;
    r, t := RequestRounds(retries, servers, nat_, net);
    ghost var rounds := if retries > 1 then retries else 1;
    ghost var limit := rounds * servers;
    InRange(rounds - 1, rounds, servers);
    Turn(rounds - 1, servers, servers - 1);
    forall n | 0 <= n < |t.servers| - 1
      ensures net(n).before.Some? || net(n).after.Some? || forall i :: 0 <= i < |net(n).addresses| ==> net(n).addresses[i].Some?
    {
      RustMeaning(net, limit, n);
    }
    RustMeaning(net, limit, |t.servers| - 1);
    ResultMeaning(net(|t.servers| - 1), nat_, r);
  }

  /** The loops over the rounds and the servers. */
  method RequestRounds(retries: nat, servers: nat, nat_: bool, net: nat -> Net)
    returns (r: R.Result<R.Message, Error>, t: Trace)
    requires servers == 1 || servers == 2
    ensures RoundRobin(t.servers, servers)
    ensures var rounds := if retries > 1 then retries else 1;
      var limit := rounds * servers;
      var k := FirstPast(RustPast(net), limit);
      if k < limit then
        && |t.servers| == k + 1 && t.pauses == k / servers && t.writes == Written(net(k), nat_)
        && r == match Attempted(net(k), nat_) case Reply(m) => R.Ok(m) case Retry(e) => R.Err(e) case Return(e) => R.Err(e)
      else
        && |t.servers| == limit && t.pauses == rounds - 1 && t.writes == 0
        && Attempted(net(limit - 1), nat_).Retry? && r == R.Err(Attempted(net(limit - 1), nat_).error)
  {
    hide Attempted, Connects, SoFar, RoundRobin, FirstPast, Authenticates;
    ghost var past := RustPast(net);
    SoFarNone(servers, past);
    t := Trace([], 0, 0);
    var lastError: Option<Error> := None;
    var rounds := if retries > 1 then retries else 1;
    ghost var limit := rounds * servers;
    for retry := 0 to rounds
      invariant SoFar(t, servers, past) && t.writes == 0 && |t.servers| == retry * servers
      invariant t.pauses == if retry == rounds then rounds - 1 else retry
      invariant retry > 0 ==> |t.servers| > 0 && RetryError(net(|t.servers| - 1), nat_, lastError)
    {
      InRange(retry, rounds, servers);
      for server := 0 to servers
        invariant SoFar(t, servers, past) && t.writes == 0 && |t.servers| == retry * servers + server && t.pauses == retry
        invariant server > 0 ==> RetryError(net(|t.servers| - 1), nat_, lastError)
      {
        var n := |t.servers|;
        SoFarNext(t, servers, past, retry, server, limit);
        var result, writes := TryRequest(net(n), nat_);
        t := Trace(t.servers + [server], t.pauses, t.writes + writes);
        if !result.Retry? {
          r := match result case Reply(m) => R.Ok(m) case Return(e) => R.Err(e);
          return;
        }
        lastError := Some(result.error);
      }
      if retry + 1 < rounds {
        PauseKeeps(t, servers, past);
        t := t.(pauses := t.pauses + 1);
      }
    }
    SoFarAll(t, servers, past, limit);
    r := R.Err(if lastError.Some? then lastError.value else NoServers);
  }

  /** The attempt could be retried, and `e` is its error. */
  predicate RetryError(a: Net, nat_: bool, e: Option<Error>) {
    Attempted(a, nat_).Retry? && e == Some(Attempted(a, nat_).error)
  }

  lemma {:induction false} InRange(round: nat, rounds: nat, servers: nat)
    requires round < rounds
    ensures round * servers + servers == (round + 1) * servers <= rounds * servers
  {
  }
}
