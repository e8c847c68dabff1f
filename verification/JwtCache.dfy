/** The cache of validated tokens, against two clocks. */
module JwtCache {
  import opened Wrappers
  import opened JsonValues
  import Jwt

  const CAPACITY: nat := 10_000

  /** Both clocks tick in nanoseconds. */
  const SECOND: int := 1_000_000_000

  /** One instant as the two clocks read it. */
  datatype Moment = Moment(wall: int, mono: int)

  /** Seconds since the epoch; a clock before it reads as zero. */
  function Seconds(wall: int): int {
    if wall < 0 then 0 else wall / SECOND
  }

  datatype Entry = Entry(result: Jwt.AuthResult, expires: int)

  type Entries = map<string, Entry>

  datatype Expiry = Absent | In(nanoseconds: nat) | Unreadable

  function RemainingLifetime(result: Jwt.AuthResult, wall: int): Expiry {
    if "exp" !in result.claims then Absent
    else if !result.claims["exp"].Num? || wall < 0 then Unreadable
    else
      var left := Jwt.Truncated(result.claims["exp"].number) - Seconds(wall);
      In(if left <= 0 then 0 else left * SECOND)
  }

  /** How long an answer may be kept, if it may be kept at all. */
  function Ttl(maxLifetime: nat, result: Jwt.AuthResult, wall: int): Option<nat> {
    match RemainingLifetime(result, wall)
    case Absent => Some(maxLifetime)
    case In(remaining) => if remaining == 0 then None else Some(if remaining < maxLifetime then remaining else maxLifetime)
    case Unreadable => None
  }

  // ----- What the two operations do to the map -----

  function Looked(entries: Entries, token: string, mono: int): (Option<Jwt.AuthResult>, Entries) {
    if token !in entries then (None, entries)
    else if entries[token].expires > mono then (Some(entries[token].result), entries)
    else (None, entries - {token})
  }

  function Live(entries: Entries, mono: int): Entries {
    map t | t in entries && entries[t].expires > mono :: entries[t]
  }

  function Roomy(entries: Entries, mono: int): Entries {
    if |entries| < CAPACITY then entries
    else if |Live(entries, mono)| < CAPACITY then Live(entries, mono)
    else map[]
  }

  function Stored(entries: Entries, token: string, result: Jwt.AuthResult, ttl: nat, mono: int): Entries {
    Roomy(entries, mono)[token := Entry(result, mono + ttl)]
  }

  /** When the clocks are read while one request is authenticated. */
  datatype Times = Times(lookup: Moment, validate: Moment, measure: Moment, store: Moment)

  function Authenticated(verify: Jwt.Verifier, config: Jwt.Config, maxLifetime: nat, entries: Entries,
                         header: Option<string>, t: Times): (Result<Jwt.AuthResult, Jwt.JwtError>, Entries)
  {
    if header.None? then (Jwt.Authenticate(verify, None, config, Seconds(t.validate.wall)), entries)
    else
      match Jwt.ExtractBearerToken(header.value)
      case Err(e) => (Err(e), entries)
      case Ok(token) => ForToken(verify, config, maxLifetime, entries, token, t)
  }

  function ForToken(verify: Jwt.Verifier, config: Jwt.Config, maxLifetime: nat, entries: Entries, token: string, t: Times)
    : (Result<Jwt.AuthResult, Jwt.JwtError>, Entries)
  {
    var (hit, after) := Looked(entries, token, t.lookup.mono);
    if hit.Some? then (Ok(hit.value), after)
    else
      match Jwt.ValidateToken(verify, token, config, Seconds(t.validate.wall))
      case Err(e) => (Err(e), after)
      case Ok(result) =>
        match Ttl(maxLifetime, result, t.measure.wall)
        case None => (Ok(result), after)
        case Some(ttl) => (Ok(result), Stored(after, token, result, ttl, t.store.mono))
  }

  // ----- The cache as it runs -----

  class Cache {
    const verify: Jwt.Verifier
    const maxLifetime: nat
    var entries: Entries

    constructor (verify: Jwt.Verifier, maxLifetime: nat)
      ensures this.verify == verify && this.maxLifetime == maxLifetime && entries == map[]
    {
      this.verify := verify;
      this.maxLifetime := maxLifetime;
      entries := map[];
    }

    method Get(token: string, now: Moment) returns (hit: Option<Jwt.AuthResult>)
      modifies this`entries
      ensures (hit, entries) == Looked(old(entries), token, now.mono)
    {
      if token !in entries {
        return None;
      }
      if entries[token].expires > now.mono {
        return Some(entries[token].result);
      }
      entries := entries - {token};
      return None;
    }

    method Insert(token: string, result: Jwt.AuthResult, ttl: nat, now: Moment)
      modifies this`entries
      ensures entries == Stored(old(entries), token, result, ttl, now.mono)
    {
      if |entries| >= CAPACITY {
        entries := map t | t in entries && entries[t].expires > now.mono :: entries[t];
        if |entries| >= CAPACITY {
          entries := map[];
        }
      }
      entries := entries[token := Entry(result, now.mono + ttl)];
    }

    method Authenticate(header: Option<string>, config: Jwt.Config, t: Times)
      returns (r: Result<Jwt.AuthResult, Jwt.JwtError>)
      modifies this`entries
      ensures (r, entries) == Authenticated(verify, config, maxLifetime, old(entries), header, t)
    {
      if header.None? {
        return Jwt.Authenticate(verify, None, config, Seconds(t.validate.wall));
      }
      var token := Jwt.ExtractBearerToken(header.value);
      if token.Err? {
        return Err(token.error);
      }
      var hit := Get(token.value, t.lookup);
      if hit.Some? {
        return Ok(hit.value);
      }
      r := Jwt.ValidateToken(verify, token.value, config, Seconds(t.validate.wall));
      if r.Err? {
        return;
      }
      var ttl := Ttl(maxLifetime, r.value, t.measure.wall);
      if ttl.Some? {
        Insert(token.value, r.value, ttl.value, t.store);
      }
    }
  }

  // ----- Every run -----

  /** One thing that happens under the lock. Requests overlap freely: a store is
      that of a token validated, and its lifetime measured, some time before. */
  datatype Event =
    | Lookup(token: string, at: Moment)
    | Store(token: string, validated: Moment, measured: Moment, at: Moment)

  datatype World = World(verify: Jwt.Verifier, config: Jwt.Config, maxLifetime: nat)
  {
    function Uncached(token: string, now: Moment): Result<Jwt.AuthResult, Jwt.JwtError> {
      Jwt.ValidateToken(verify, token, config, Seconds(now.wall))
    }

    function Step(entries: Entries, e: Event): Entries {
      match e
      case Lookup(token, at) => Looked(entries, token, at.mono).1
      case Store(token, validated, measured, at) =>
        match Uncached(token, validated)
        case Err(_) => entries
        case Ok(result) =>
          match Ttl(maxLifetime, result, measured.wall)
          case None => entries
          case Some(ttl) => Stored(entries, token, result, ttl, at.mono)
    }

    function Run(events: seq<Event>): Entries {
      if events == [] then map[] else Step(Run(events[..|events| - 1]), events[|events| - 1])
    }
  }

  /** The clocks advance together; each token is measured after it is validated
      and stored within `delay` of that. A store reads its clock before it takes
      the lock, so the readings need not be in the order of the events. */
  ghost predicate Timed(events: seq<Event>, offset: int, delay: nat) {
    forall i | 0 <= i < |events| ::
      && events[i].at.wall == events[i].at.mono + offset
      && (events[i].Store? ==>
            && events[i].validated.wall <= events[i].measured.wall <= events[i].at.wall
            && events[i].at.wall - events[i].measured.wall <= delay)
  }

  /** Every clock read so far was read by `latest`. */
  ghost predicate By(events: seq<Event>, latest: int) {
    forall i | 0 <= i < |events| :: events[i].at.wall <= latest
  }

  /** What an entry is known by: it was valid at a time past, and it goes less
      than `delay` after the last second its token is valid in. */
  ghost predicate Sound(w: World, token: string, e: Entry, offset: int, delay: nat, latest: int) {
    exists wall ::
      && wall <= latest
      && Jwt.ValidateToken(w.verify, token, w.config, Seconds(wall)) == Ok(e.result)
      && Bounded(e, offset, delay)
      && ("exp" in e.result.claims ==> 0 <= latest)
  }

  ghost predicate Bounded(e: Entry, offset: int, delay: nat) {
    "exp" in e.result.claims ==>
      && e.result.claims["exp"].Num?
      && e.expires + offset < (Jwt.Truncated(e.result.claims["exp"].number) + 1) * SECOND + delay
  }

  ghost predicate AllSound(w: World, entries: Entries, offset: int, delay: nat, latest: int) {
    forall t | t in entries :: Sound(w, t, entries[t], offset, delay, latest)
  }

  lemma SecondsMonotone(a: int, b: int)
    requires a <= b
    ensures Seconds(a) <= Seconds(b)
  {
  }

  lemma {:induction false} StoredBounded(w: World, result: Jwt.AuthResult, measured: Moment, at: Moment, ttl: nat, offset: int, delay: nat)
    requires Ttl(w.maxLifetime, result, measured.wall) == Some(ttl)
    requires at.wall == at.mono + offset && measured.wall <= at.wall && at.wall - measured.wall <= delay
    ensures Bounded(Entry(result, at.mono + ttl), offset, delay)
  {
    if "exp" in result.claims {
      var exp := Jwt.Truncated(result.claims["exp"].number);
      assert ttl <= (exp - Seconds(measured.wall)) * SECOND;
      assert measured.wall < (Seconds(measured.wall) + 1) * SECOND;
    }
  }

  lemma {:induction false} StepSound(w: World, entries: Entries, e: Event, offset: int, delay: nat, latest: int)
    requires AllSound(w, entries, offset, delay, latest) && e.at.wall <= latest
    requires e.at.wall == e.at.mono + offset
    requires e.Store? ==> e.validated.wall <= e.measured.wall <= e.at.wall && e.at.wall - e.measured.wall <= delay
    ensures AllSound(w, w.Step(entries, e), offset, delay, latest)
  {
    var after := w.Step(entries, e);
    forall t | t in after ensures Sound(w, t, after[t], offset, delay, latest) {
      if t !in entries || after[t] != entries[t] {
        var result := w.Uncached(t, e.validated).value;
        StoredBounded(w, result, e.measured, e.at, Ttl(w.maxLifetime, result, e.measured.wall).value, offset, delay);
        assert Jwt.ValidateToken(w.verify, t, w.config, Seconds(e.validated.wall)) == Ok(after[t].result);
      }
    }
  }

  lemma {:induction false} RunSound(w: World, events: seq<Event>, offset: int, delay: nat, latest: int)
    requires Timed(events, offset, delay) && By(events, latest)
    ensures AllSound(w, w.Run(events), offset, delay, latest)
    decreases |events|
  {
    if events != [] {
      var front, last := events[..|events| - 1], events[|events| - 1];
      RunSound(w, front, offset, delay, latest);
      StepSound(w, w.Run(front), last, offset, delay, latest);
    }
  }

  /** How long ago, on the wall clock, a token's last second ended. */
  function Overstay(result: Jwt.AuthResult, now: Moment): int
    requires "exp" in result.claims && result.claims["exp"].Num?
  {
    now.wall - (Jwt.Truncated(result.claims["exp"].number) + 1) * SECOND
  }

  /** After any run, a hit is what uncached authentication would answer at that
      moment -- or an answer whose token ran out no more than `delay - 2` ago. */
  lemma {:induction false} HitAgrees(w: World, events: seq<Event>, token: string, now: Moment, offset: int, delay: nat)
    requires Timed(events, offset, delay) && By(events, now.wall) && now.wall == now.mono + offset
    requires Looked(w.Run(events), token, now.mono).0.Some?
    ensures var hit := Looked(w.Run(events), token, now.mono).0.value;
      || w.Uncached(token, now) == Ok(hit)
      || (&& w.Uncached(token, now) == Err(Jwt.Claim(Jwt.Expired))
          && "exp" in hit.claims && hit.claims["exp"].Num?
          && 0 <= Overstay(hit, now) <= delay - 2)
  {
    var entries := w.Run(events);
    RunSound(w, events, offset, delay, now.wall);
    var e := entries[token];
    assert Sound(w, token, e, offset, delay, now.wall);
    var wall :| wall <= now.wall && Jwt.ValidateToken(w.verify, token, w.config, Seconds(wall)) == Ok(e.result)
                && Bounded(e, offset, delay);
    SecondsMonotone(wall, now.wall);
    Jwt.ValidUntilExpiry(w.verify, token, w.config, Seconds(wall), Seconds(now.wall));
  }

  /** That bound is reached, for every delay: measure in the last nanosecond of a
      second, store `delay` later, and ask in the entry's last nanosecond. */
  lemma {:induction false} OverstayReached(delay: nat)
    returns (w: World, event: Event, now: Moment, result: Jwt.AuthResult)
    requires 2 <= delay
    ensures Timed([event], 0, delay) && By([event], now.wall) && now.wall == now.mono
    ensures Looked(w.Step(map[], event), event.token, now.mono).0 == Some(result)
    ensures w.Uncached(event.token, now) == Err(Jwt.Claim(Jwt.Expired))
    ensures "exp" in result.claims && result.claims["exp"].Num? && Overstay(result, now) == delay - 2
  {
    var claims := map["exp" := Num(1.0), "role" := Str("web_user")];
    w := World((_, _, _) => Ok(claims), Jwt.Config(Some("secret"), false, None, "role", None), 3600 * SECOND);
    var measured := SECOND - 1;
    event := Store("token", Moment(measured, measured), Moment(measured, measured),
                   Moment(measured + delay, measured + delay));
    var later := 2 * SECOND + delay - 2;
    now := Moment(later, later);
    assert Jwt.Truncated(1.0) == 1;
    result := Jwt.AuthResult("web_user", claims);
    assert w.Uncached("token", event.validated) == Ok(result);
    assert Ttl(w.maxLifetime, result, measured) == Some(SECOND);
  }

  /** Every hit of one run is the uncached answer of its moment. */
  ghost predicate HitsExact(w: World, events: seq<Event>, offset: int) {
    forall token, now: Moment ::
      now.wall == now.mono + offset && By(events, now.wall) && Looked(w.Run(events), token, now.mono).0.Some? ==>
        w.Uncached(token, now) == Ok(Looked(w.Run(events), token, now.mono).0.value)
  }

  /** Every hit in every run with this delay is exactly the uncached answer if and
      only if the delay is at most one nanosecond. */
  lemma {:induction false} HitIsExact(delay: nat)
    ensures (forall w, events, offset :: Timed(events, offset, delay) ==> HitsExact(w, events, offset)) <==> delay <= 1
  {
    if delay <= 1 {
      forall w, events, offset | Timed(events, offset, delay) ensures HitsExact(w, events, offset) {
        RunHitsExact(w, events, offset, delay);
      }
    } else {
      var w, event, now, result := OverstayReached(delay);
      var events := [event];
      assert events[..0] == [];
      assert w.Run(events) == w.Step(w.Run([]), event);
      assert !HitsExact(w, events, 0);
    }
  }

  lemma {:induction false} RunHitsExact(w: World, events: seq<Event>, offset: int, delay: nat)
    requires Timed(events, offset, delay) && delay <= 1
    ensures HitsExact(w, events, offset)
  {
    forall token, now: Moment
      | now.wall == now.mono + offset && By(events, now.wall) && Looked(w.Run(events), token, now.mono).0.Some?
      ensures w.Uncached(token, now) == Ok(Looked(w.Run(events), token, now.mono).0.value)
    {
      HitAgrees(w, events, token, now, offset, delay);
    }
  }

  // ----- A request is its events -----

  /** What one request does to the map is its lookup followed, on a miss, by its
      store -- so overlapping requests are runs of events too. */
  lemma {:induction false} RequestIsEvents(w: World, entries: Entries, header: string, token: string, t: Times)
    requires Jwt.ExtractBearerToken(header) == Ok(token)
    ensures var looked := w.Step(entries, Lookup(token, t.lookup));
      Authenticated(w.verify, w.config, w.maxLifetime, entries, Some(header), t).1
      == if Looked(entries, token, t.lookup.mono).0.Some? then looked
         else w.Step(looked, Store(token, t.validate, t.measure, t.store))
  {
    TokenIsEvents(w, entries, token, t);
  }

  lemma {:induction false} TokenIsEvents(w: World, entries: Entries, token: string, t: Times)
    ensures var looked := w.Step(entries, Lookup(token, t.lookup));
      ForToken(w.verify, w.config, w.maxLifetime, entries, token, t).1
      == if Looked(entries, token, t.lookup.mono).0.Some? then looked
         else w.Step(looked, Store(token, t.validate, t.measure, t.store))
  {
  }

  /** When the answer a request gets was true: on a hit as of the lookup, on a
      miss as of the validation. */
  function AnsweredAt(entries: Entries, token: string, t: Times): Moment {
    if Looked(entries, token, t.lookup.mono).0.Some? then t.lookup else t.validate
  }

  lemma {:induction false} AnswerCases(w: World, entries: Entries, header: string, token: string, t: Times)
    requires Jwt.ExtractBearerToken(header) == Ok(token)
    ensures Authenticated(w.verify, w.config, w.maxLifetime, entries, Some(header), t).0
         == var hit := Looked(entries, token, t.lookup.mono).0;
            if hit.Some? then Ok(hit.value) else w.Uncached(token, t.validate)
    ensures forall now: Moment ::
      Jwt.Authenticate(w.verify, Some(header), w.config, Seconds(now.wall)) == w.Uncached(token, now)
  {
  }

  /** Through the cache or not, the answer is the same -- except that a token may
      be answered for up to `delay - 2` after it ran out, and so never with a
      delay of at most one nanosecond. */
  lemma {:induction false} CachedAnswerAgrees(w: World, events: seq<Event>, header: string, token: string, t: Times,
                                              offset: int, delay: nat)
    requires Jwt.ExtractBearerToken(header) == Ok(token)
    requires Timed(events, offset, delay) && By(events, t.lookup.wall) && t.lookup.wall == t.lookup.mono + offset
    ensures var cached := Authenticated(w.verify, w.config, w.maxLifetime, w.Run(events), Some(header), t).0;
      var uncached := Jwt.Authenticate(w.verify, Some(header), w.config, Seconds(AnsweredAt(w.Run(events), token, t).wall));
      || cached == uncached
      || (&& uncached == Err(Jwt.Claim(Jwt.Expired)) && cached.Ok?
          && "exp" in cached.value.claims && cached.value.claims["exp"].Num?
          && 0 <= Overstay(cached.value, t.lookup) <= delay - 2)
  {
    var entries := w.Run(events);
    AnswerCases(w, entries, header, token, t);
    var now := AnsweredAt(entries, token, t);
    assert Jwt.Authenticate(w.verify, Some(header), w.config, Seconds(now.wall)) == w.Uncached(token, now);
    if Looked(entries, token, t.lookup.mono).0.Some? {
      HitAgrees(w, events, token, t.lookup, offset, delay);
    }
  }

  // ----- The bound -----

  lemma LiveShrinks(entries: Entries, mono: int)
    ensures |Live(entries, mono)| <= |entries|
  {
    SubmapSmaller(Live(entries, mono), entries);
  }

  lemma SubmapSmaller(a: Entries, b: Entries)
    requires a.Keys <= b.Keys
    ensures |a| <= |b|
  {
    assert |a| == |a.Keys| && |b| == |b.Keys|;
    KeysSmaller(a.Keys, b.Keys);
  }

  lemma {:induction false} KeysSmaller(a: set<string>, b: set<string>)
    requires a <= b
    ensures |a| <= |b|
  {
    if a != {} {
      var x :| x in a;
      KeysSmaller(a - {x}, b - {x});
    }
  }

  lemma StepBounded(w: World, entries: Entries, e: Event)
    requires |entries| <= CAPACITY
    ensures |w.Step(entries, e)| <= CAPACITY
  {
    match e
    case Lookup(token, at) => SubmapSmaller(Looked(entries, token, at.mono).1, entries);
    case Store(token, validated, measured, at) =>
      LiveShrinks(entries, at.mono);
      var room, after := Roomy(entries, at.mono), w.Step(entries, e);
      if after != entries { GrowsByOne(room, token, after[token]); }
  }

  lemma GrowsByOne(room: Entries, token: string, e: Entry)
    ensures |room[token := e]| <= |room| + 1
  {
    assert room[token := e].Keys == room.Keys + {token};
    assert |room[token := e].Keys| <= |room.Keys| + 1;
  }

  /** An entry is served from the moment it is stored until its time is up, and
      storing it costs no live entry its place while those leave room. */
  lemma {:induction false} StoredIsServed(entries: Entries, token: string, result: Jwt.AuthResult, ttl: nat, mono: int,
                                          other: string, now: int)
    requires mono <= now
    ensures var after := Stored(entries, token, result, ttl, mono);
      && (Looked(after, token, now).0 == Some(result) <==> now < mono + ttl)
      && (now >= mono + ttl ==> Looked(after, token, now).0.None?)
      && (other != token && |Live(entries, mono)| < CAPACITY ==> Looked(after, other, now).0 == Looked(entries, other, now).0)
  {
    var after := Stored(entries, token, result, ttl, mono);
    assert after[token] == Entry(result, mono + ttl);
    if other != token && |Live(entries, mono)| < CAPACITY {
      assert other in after <==> other in Roomy(entries, mono);
    }
  }

  /** No run grows the map past its capacity. */
  lemma {:induction false} RunBounded(w: World, events: seq<Event>)
    ensures |w.Run(events)| <= 10_000
    decreases |events|
  {
    if events != [] {
      RunBounded(w, events[..|events| - 1]);
      StepBounded(w, w.Run(events[..|events| - 1]), events[|events| - 1]);
    }
  }

  /** How long an answer is kept: the configured time, but not past the second its
      token runs out in, and not at all where that cannot be read or is over. */
  lemma {:induction false} KeptFor(maxLifetime: nat, result: Jwt.AuthResult, wall: int)
    ensures "exp" !in result.claims ==> Ttl(maxLifetime, result, wall) == Some(maxLifetime)
    ensures "exp" in result.claims && (!result.claims["exp"].Num? || wall < 0) ==> Ttl(maxLifetime, result, wall).None?
    ensures "exp" in result.claims && result.claims["exp"].Num? && wall >= 0 ==>
      var left := (Jwt.Truncated(result.claims["exp"].number) - wall / 1_000_000_000) * 1_000_000_000;
      Ttl(maxLifetime, result, wall) == if left <= 0 then None else if left < maxLifetime then Some(left) else Some(maxLifetime)
  {
  }
}
