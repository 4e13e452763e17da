/** Refresh tokens: login starts a family, rotation replaces its live token by a successor,
    logout revokes, and the cleanup job deletes what has expired. */
module RefreshTokens {
  import opened Wrappers

  type Hash = nat
  type Family = nat
  type User = nat

  const LIFETIME := 30 * 86_400

  datatype Token = Token(
    user: User, family: Family, createdAt: int, expiresAt: int,
    revokedAt: Option<int>, replacedBy: Option<Hash>)

  type Table = map<Hash, Token>

  function Issued(user: User, family: Family, now: int): Token {
    Token(user, family, now, now + LIFETIME, None, None)
  }

  /** The token a rotation may use: known, unrevoked, not expired, of an active user. */
  predicate Rotatable(table: Table, hash: Hash, now: int, active: bool) {
    hash in table && table[hash].revokedAt.None? && now < table[hash].expiresAt && active
  }

  function Rotated(table: Table, hash: Hash, drawn: Hash, now: int): Table
    requires hash in table
  {
    var token := table[hash];
    table[drawn := Issued(token.user, token.family, now)]
         [hash := token.(revokedAt := Some(now), replacedBy := Some(drawn))]
  }

  function Revoked(table: Table, hash: Hash, now: int): Table {
    if hash in table && table[hash].revokedAt.None? then table[hash := table[hash].(revokedAt := Some(now))] else table
  }

  function Cleaned(table: Table, now: int): Table {
    map h | h in table && table[h].expiresAt >= now :: table[h]
  }

  datatype AuthError = AuthenticationFailed

  // ------------------------------------------------- the code

  class TokenStore {
    var tokens: Table

    constructor ()
      ensures tokens == map[]
    {
      tokens := map[];
    }

    /** `issue_token_pair`: the new token's fingerprint is `drawn`; a login also draws a family. */
    method IssueTokenPair(user: User, family: Family, drawn: Hash, now: int)
      modifies this
      ensures tokens == old(tokens)[drawn := Token(user, family, now, now + 30 * 86_400, None, None)]
    {
      var refresh := Token(user, family, now, now + LIFETIME, None, None);
      tokens := tokens[drawn := refresh];
    }

    method RotateRefreshToken(hash: Hash, active: bool, drawn: Hash, now: int) returns (r: Result<Hash, AuthError>)
      requires drawn !in tokens
      modifies this
      ensures r.Success? <==> Rotatable(old(tokens), hash, now, active)
      ensures r.Success? ==> r.value == drawn && tokens == Rotated(old(tokens), hash, drawn, now)
      ensures r.Success? <==>
                && hash in old(tokens) && active
                && old(tokens)[hash].revokedAt == None && now < old(tokens)[hash].expiresAt
      ensures r.Success? ==>
                var token := old(tokens)[hash];
                && tokens.Keys == old(tokens).Keys + {drawn}
                && (forall h :: h in old(tokens) && h != hash ==> tokens[h] == old(tokens)[h])
                && tokens[drawn] == Token(token.user, token.family, now, now + 30 * 86_400, None, None)
                && tokens[hash] ==
                   Token(token.user, token.family, token.createdAt, token.expiresAt, Some(now), Some(drawn))
      ensures r.Failure? ==> tokens == old(tokens)
    {
      if hash !in tokens || tokens[hash].revokedAt.Some? || tokens[hash].expiresAt <= now {
        return Failure(AuthenticationFailed);
      }
      if !active {
        return Failure(AuthenticationFailed);
      }
      var token := tokens[hash];
      IssueTokenPair(token.user, token.family, drawn, now);
      token := token.(revokedAt := Some(now));
      token := token.(replacedBy := Some(drawn));
      tokens := tokens[hash := token];
      return Success(drawn);
    }

    method RevokeRefreshToken(hash: Hash, now: int)
      modifies this
      ensures tokens == Revoked(old(tokens), hash, now)
      ensures tokens.Keys == old(tokens).Keys
      ensures forall h :: h in tokens ==>
                var token := old(tokens)[h];
                tokens[h] ==
                if h == hash && token.revokedAt == None then
                  Token(token.user, token.family, token.createdAt, token.expiresAt, Some(now), token.replacedBy)
                else token
    {
      if hash in tokens && tokens[hash].revokedAt.None? {
        tokens := tokens[hash := tokens[hash].(revokedAt := Some(now))];
      }
    }

    method CleanupExpired(now: int)
      modifies this
      ensures tokens == Cleaned(old(tokens), now)
      ensures forall h :: h in tokens <==> h in old(tokens) && old(tokens)[h].expiresAt >= now
      ensures forall h :: h in tokens ==> tokens[h] == old(tokens)[h]
    {
      tokens := map h | h in tokens && !(tokens[h].expiresAt < now) :: tokens[h];
    }
  }

  // ------------------------------------------------- runs

  datatype Event =
    | Login(user: User, family: Family, drawn: Hash)
    | Rotate(hash: Hash, active: bool, drawn: Hash)
    | Logout(hash: Hash)
    | Cleanup
    | Wait(until: int)

  datatype Rotation = Rotation(hash: Hash, at: int)

  /** `clock` never goes back; `chains` records, for each family, its surviving tokens in the order
      of issue, `issuedAt` when every hash ever drawn was issued, and `rotations` which hashes were
      rotated when. */
  datatype System = System(
    table: Table, clock: int, chains: map<Family, seq<Hash>>, issuedAt: map<Hash, int>, rotations: seq<Rotation>)

  const INITIAL := System(map[], 0, map[], map[], [])

  /** The tokens of a chain that outlive `now`. */
  function Surviving(table: Table, chain: seq<Hash>, now: int): seq<Hash> {
    if chain == [] then []
    else if chain[0] in table && table[chain[0]].expiresAt >= now then [chain[0]] + Surviving(table, chain[1..], now)
    else Surviving(table, chain[1..], now)
  }

  function Next(s: System, e: Event): Option<System> {
    match e
    case Login(user, family, drawn) =>
      if drawn in s.issuedAt || family in s.chains then None
      else Some(s.(table := s.table[drawn := Issued(user, family, s.clock)],
                   chains := s.chains[family := [drawn]], issuedAt := s.issuedAt[drawn := s.clock]))
    case Rotate(hash, active, drawn) =>
      if drawn in s.issuedAt then None
      else if !Rotatable(s.table, hash, s.clock, active) then Some(s)
      else
        var family := s.table[hash].family;
        var chain := if family in s.chains then s.chains[family] else [];
        Some(s.(table := Rotated(s.table, hash, drawn, s.clock),
                chains := s.chains[family := chain + [drawn]],
                issuedAt := s.issuedAt[drawn := s.clock], rotations := s.rotations + [Rotation(hash, s.clock)]))
    case Logout(hash) => Some(s.(table := Revoked(s.table, hash, s.clock)))
    case Cleanup =>
      Some(s.(table := Cleaned(s.table, s.clock),
              chains := map f | f in s.chains :: Surviving(s.table, s.chains[f], s.clock)))
    case Wait(until) => if until >= s.clock then Some(s.(clock := until)) else None
  }

  ghost predicate Reaches(s: System, es: seq<Event>, t: System)
    decreases |es|
  {
    if es == [] then s == t
    else Next(s, es[0]).Some? && Reaches(Next(s, es[0]).value, es[1..], t)
  }

  // ------------------------------------------------- the shape of a family

  /** The tokens of the chain exist, and their lifetimes never get shorter. */
  ghost predicate LifetimesGrow(table: Table, chain: seq<Hash>) {
    && (forall i :: 0 <= i < |chain| ==> chain[i] in table)
    && (forall i, j :: 0 <= i < j < |chain| ==> table[chain[i]].expiresAt <= table[chain[j]].expiresAt)
  }

  /** The chain of a family: its tokens, each revoked and replaced by the next, the last by nothing;
      one user; lifetimes that never get shorter. */
  ghost predicate Linear(table: Table, family: Family, chain: seq<Hash>) {
    && (forall i :: 0 <= i < |chain| ==> chain[i] in table && table[chain[i]].family == family)
    && (forall i :: 0 <= i < |chain| - 1 ==>
          table[chain[i]].revokedAt.Some? && table[chain[i]].replacedBy == Some(chain[i + 1]))
    && (chain != [] ==> table[chain[|chain| - 1]].replacedBy.None?)
    && (forall i, j :: 0 <= i < j < |chain| ==>
          && chain[i] != chain[j]
          && table[chain[i]].user == table[chain[j]].user)
    && LifetimesGrow(table, chain)
  }

  ghost predicate ChainsLinear(s: System) {
    forall f :: f in s.chains ==> Linear(s.table, f, s.chains[f])
  }

  ghost predicate ChainsCover(s: System) {
    forall h :: h in s.table ==> s.table[h].family in s.chains && h in s.chains[s.table[h].family]
  }

  /** A token lives thirty days from its issue. */
  ghost predicate Drawn(s: System) {
    forall h :: h in s.table ==>
      && h in s.issuedAt && s.issuedAt[h] <= s.clock
      && s.table[h].createdAt == s.issuedAt[h] && s.table[h].expiresAt == s.issuedAt[h] + 2_592_000
  }

  ghost predicate RotatedOnce(s: System) {
    && (forall i :: 0 <= i < |s.rotations| ==>
          var (hash, at) := (s.rotations[i].hash, s.rotations[i].at);
          && hash in s.issuedAt && s.issuedAt[hash] <= at < s.issuedAt[hash] + 2_592_000
          && (hash in s.table ==> s.table[hash].revokedAt.Some?))
    && (forall i, j :: 0 <= i < j < |s.rotations| ==> s.rotations[i].hash != s.rotations[j].hash)
  }

  ghost predicate Inv(s: System) {
    ChainsLinear(s) && ChainsCover(s) && Drawn(s) && RotatedOnce(s)
  }

  /** A token outside the table does not disturb a chain. */
  lemma LinearFrame(table: Table, table': Table, family: Family, chain: seq<Hash>)
    requires Linear(table, family, chain)
    requires forall h :: h in chain ==> h in table' && table'[h] == table[h]
    ensures Linear(table', family, chain)
  {
  }

  /** The only token of a family that can still be rotated is the last of its chain. */
  lemma LiveIsLast(table: Table, family: Family, chain: seq<Hash>, hash: Hash)
    requires Linear(table, family, chain) && hash in chain && table[hash].revokedAt.None?
    ensures chain[|chain| - 1] == hash
  {
  }

  lemma RotateLinear(table: Table, family: Family, chain: seq<Hash>, hash: Hash, drawn: Hash, now: int)
    requires Linear(table, family, chain) && hash in chain && table[hash].revokedAt.None?
    requires drawn !in table && table[hash].expiresAt <= now + LIFETIME
    ensures Linear(Rotated(table, hash, drawn, now), family, chain + [drawn])
  {
    hide LifetimesGrow;
    ChainInTable(table, family, chain);
    LiveIsLast(table, family, chain, hash);
    RotateLifetimes(table, chain, hash, drawn, now);
    var chain' := chain + [drawn];
    assert forall i :: 0 <= i < |chain| ==> chain[i] in chain && chain'[i] == chain[i];
  }

  lemma RotateLifetimes(table: Table, chain: seq<Hash>, hash: Hash, drawn: Hash, now: int)
    requires LifetimesGrow(table, chain) && chain != [] && chain[|chain| - 1] == hash
    requires drawn !in table && table[hash].expiresAt <= now + LIFETIME
    ensures LifetimesGrow(Rotated(table, hash, drawn, now), chain + [drawn])
  {
  }

  lemma {:induction false} AllSurvive(table: Table, chain: seq<Hash>, now: int)
    requires forall h :: h in chain ==> h in table && table[h].expiresAt >= now
    ensures Surviving(table, chain, now) == chain
  {
    if chain != [] {
      assert chain[0] in chain;
      AllSurvive(table, chain[1..], now);
    }
  }

  lemma TailGrows(table: Table, chain: seq<Hash>)
    requires LifetimesGrow(table, chain) && chain != []
    ensures LifetimesGrow(table, chain[1..])
    ensures forall h :: h in chain ==> h in table && table[h].expiresAt >= table[chain[0]].expiresAt
  {
  }

  lemma {:induction false} SurvivingIsSuffix(table: Table, chain: seq<Hash>, now: int) returns (k: nat)
    requires LifetimesGrow(table, chain)
    ensures k <= |chain| && Surviving(table, chain, now) == chain[k..]
    ensures forall i :: 0 <= i < |chain| ==> chain[i] in table && (table[chain[i]].expiresAt >= now <==> i >= k)
    decreases |chain|
  {
    hide LifetimesGrow;
    k := 0;
    if chain != [] {
      TailGrows(table, chain);
      assert forall i :: 0 <= i < |chain| ==> chain[i] in chain;
      if table[chain[0]].expiresAt >= now {
        AllSurvive(table, chain, now);
      } else {
        var m := SurvivingIsSuffix(table, chain[1..], now);
        assert forall i :: 0 < i < |chain| ==> chain[i] == chain[1..][i - 1];
        k := m + 1;
      }
    }
  }

  lemma CleanupLinear(table: Table, family: Family, chain: seq<Hash>, now: int)
    requires Linear(table, family, chain)
    ensures Linear(Cleaned(table, now), family, Surviving(table, chain, now))
    ensures forall h :: h in chain && table[h].expiresAt >= now ==> h in Surviving(table, chain, now)
  {
    var k := SurvivingIsSuffix(table, chain, now);
    var rest := chain[k..];
    assert forall i :: 0 <= i < |rest| ==> rest[i] == chain[k + i];
    forall h | h in chain && table[h].expiresAt >= now
      ensures h in rest
    {
      var i :| 0 <= i < |chain| && chain[i] == h;
      assert rest[i - k] == h;
    }
  }

  lemma LoginKeepsChains(s: System, e: Event)
    requires Inv(s) && e.Login? && Next(s, e).Some?
    ensures ChainsLinear(Next(s, e).value)
  {
    hide Linear, RotatedOnce;
    var t := Next(s, e).value;
    FirstLinear(t.table, e.family, e.drawn);
    forall f | f in t.chains
      ensures Linear(t.table, f, t.chains[f])
    {
      if f != e.family {
        ChainInTable(s.table, f, s.chains[f]);
        NotInTable(s.table, f, s.chains[f], e.drawn);
        LinearFrame(s.table, t.table, f, s.chains[f]);
      }
    }
  }

  lemma FirstLinear(table: Table, family: Family, hash: Hash)
    requires hash in table && table[hash].family == family && table[hash].replacedBy.None?
    ensures Linear(table, family, [hash])
  {
  }

  lemma LoginKeepsInv(s: System, e: Event)
    requires Inv(s) && e.Login? && Next(s, e).Some?
    ensures Inv(Next(s, e).value)
  {
    hide Linear, ChainsLinear;
    LoginKeepsChains(s, e);
  }

  lemma RotateKeepsChains(s: System, e: Event)
    requires Inv(s) && e.Rotate? && Next(s, e).Some? && Next(s, e).value != s
    ensures ChainsLinear(Next(s, e).value)
  {
    hide Linear, Rotated, RotatedOnce;
    var t := Next(s, e).value;
    var family := s.table[e.hash].family;
    RotateLinear(s.table, family, s.chains[family], e.hash, e.drawn, s.clock);
    forall f | f in t.chains
      ensures Linear(t.table, f, t.chains[f])
    {
      if f != family {
        OtherFamily(s.table, f, s.chains[f], e.hash);
        NotInTable(s.table, f, s.chains[f], e.drawn);
        RotatedElsewhere(s.table, e.hash, e.drawn, s.clock);
        ChainInTable(s.table, f, s.chains[f]);
        LinearFrame(s.table, t.table, f, s.chains[f]);
      }
    }
  }

  lemma RotatedElsewhere(table: Table, hash: Hash, drawn: Hash, now: int)
    requires hash in table
    ensures forall h :: h in table && h != hash && h != drawn ==>
                          h in Rotated(table, hash, drawn, now) && Rotated(table, hash, drawn, now)[h] == table[h]
  {
  }

  lemma ChainInTable(table: Table, family: Family, chain: seq<Hash>)
    requires Linear(table, family, chain)
    ensures forall h :: h in chain ==> h in table
  {
  }

  lemma NotInTable(table: Table, family: Family, chain: seq<Hash>, hash: Hash)
    requires Linear(table, family, chain) && hash !in table
    ensures hash !in chain
  {
  }

  lemma RotateKeepsInv(s: System, e: Event)
    requires Inv(s) && e.Rotate? && Next(s, e).Some?
    ensures Inv(Next(s, e).value)
  {
    hide Linear, ChainsLinear;
    var t := Next(s, e).value;
    if t != s {
      RotateKeepsChains(s, e);
      forall h | h in t.table
        ensures t.table[h].family in t.chains && h in t.chains[t.table[h].family]
      {
        if h != e.drawn {
          assert h in s.table;
        }
      }
    }
  }

  lemma OtherFamily(table: Table, family: Family, chain: seq<Hash>, hash: Hash)
    requires Linear(table, family, chain) && hash in table && table[hash].family != family
    ensures hash !in chain
  {
  }

  lemma RevokedLinear(table: Table, family: Family, chain: seq<Hash>, hash: Hash, now: int)
    requires Linear(table, family, chain)
    ensures Linear(Revoked(table, hash, now), family, chain)
  {
  }

  lemma LogoutKeepsInv(s: System, hash: Hash)
    requires Inv(s)
    ensures Inv(Next(s, Logout(hash)).value)
  {
    hide Linear;
    var t := Next(s, Logout(hash)).value;
    forall f | f in t.chains
      ensures Linear(t.table, f, t.chains[f])
    {
      RevokedLinear(s.table, f, s.chains[f], hash, s.clock);
    }
  }

  lemma CleanupKeepsInv(s: System)
    requires Inv(s)
    ensures Inv(Next(s, Cleanup).value)
  {
    var t := Next(s, Cleanup).value;
    forall f | f in t.chains
      ensures Linear(t.table, f, t.chains[f])
    {
      CleanupLinear(s.table, f, s.chains[f], s.clock);
    }
    forall h | h in t.table
      ensures t.table[h].family in t.chains && h in t.chains[t.table[h].family]
    {
      var f := s.table[h].family;
      CleanupLinear(s.table, f, s.chains[f], s.clock);
    }
  }

  lemma StepKeepsInv(s: System, e: Event)
    requires Inv(s) && Next(s, e).Some?
    ensures Inv(Next(s, e).value)
  {
    match e
    case Login(_, _, _) => LoginKeepsInv(s, e);
    case Rotate(_, _, _) => RotateKeepsInv(s, e);
    case Logout(hash) => LogoutKeepsInv(s, hash);
    case Cleanup => CleanupKeepsInv(s);
    case Wait(_) =>
  }

  lemma {:induction false} InvAlways(s: System, es: seq<Event>, t: System)
    requires Inv(s) && Reaches(s, es, t)
    ensures Inv(t)
    decreases |es|
  {
    if es != [] {
      StepKeepsInv(s, es[0]);
      InvAlways(Next(s, es[0]).value, es[1..], t);
    }
  }

  /** In every reachable state the tokens of a family form one acyclic path: they are exactly the
      distinct elements of a chain in which each but the last is revoked and replaced by the next. */
  lemma FamiliesAreChains(es: seq<Event>, t: System, family: Family) returns (chain: seq<Hash>)
    requires Reaches(INITIAL, es, t)
    ensures Linear(t.table, family, chain)
    ensures forall h :: h in t.table && t.table[h].family == family <==> h in chain
  {
    InvAlways(INITIAL, es, t);
    chain := if family in t.chains then t.chains[family] else [];
  }

  /** A family has one user and at most one unrevoked token, no token points at a missing or foreign
      successor, and no token is ever rotated twice. */
  lemma FamilyFacts(es: seq<Event>, t: System, h: Hash, k: Hash)
    requires Reaches(INITIAL, es, t)
    requires h in t.table && k in t.table && t.table[h].family == t.table[k].family
    ensures t.table[h].user == t.table[k].user
    ensures t.table[h].revokedAt.None? && t.table[k].revokedAt.None? ==> h == k
    ensures t.table[h].replacedBy.Some? ==>
              var next := t.table[h].replacedBy.value;
              && next in t.table && t.table[next].family == t.table[h].family
              && t.table[next].expiresAt >= t.table[h].expiresAt
    ensures forall i, j :: 0 <= i < j < |t.rotations| ==> t.rotations[i].hash != t.rotations[j].hash
  {
    InvAlways(INITIAL, es, t);
    ChainFacts(t.table, t.table[h].family, t.chains[t.table[h].family], h, k);
  }

  lemma ChainFacts(table: Table, family: Family, chain: seq<Hash>, h: Hash, k: Hash)
    requires Linear(table, family, chain) && h in chain && k in chain
    ensures h in table && k in table && table[h].user == table[k].user
    ensures table[h].revokedAt.None? && table[k].revokedAt.None? ==> h == k
    ensures table[h].replacedBy.Some? ==>
              var next := table[h].replacedBy.value;
              next in table && table[next].family == family && table[next].expiresAt >= table[h].expiresAt
  {
    var i :| 0 <= i < |chain| && chain[i] == h;
    var j :| 0 <= j < |chain| && chain[j] == k;
    if i < |chain| - 1 {
      assert table[chain[i]].replacedBy == Some(chain[i + 1]);
      assert table[chain[i]].expiresAt <= table[chain[i + 1]].expiresAt;
    }
    if i < j {
      assert chain[i] != chain[j];
    } else if j < i {
      assert chain[j] != chain[i];
    }
  }

  /** In every run a rotation takes effect exactly for a token that is stored, unrevoked and issued less
      than thirty days ago, of an active user; any other attempt leaves the table as it was. */
  lemma RotationIff(es: seq<Event>, s: System, hash: Hash, active: bool, drawn: Hash)
    requires Reaches(INITIAL, es, s) && drawn !in s.issuedAt
    ensures hash in s.table ==> hash in s.issuedAt
    ensures var t := Next(s, Rotate(hash, active, drawn)).value;
            && (t.table != s.table <==>
                  && hash in s.table && s.table[hash].revokedAt == None
                  && s.clock < s.issuedAt[hash] + 30 * 86_400 && active)
            && (t.table == s.table ==> t == s)
            && (t.table != s.table ==>
                  && t.table[hash].revokedAt == Some(s.clock) && t.table[hash].replacedBy == Some(drawn)
                  && t.table[drawn].revokedAt == None && t.issuedAt[drawn] == s.clock
                  && t.rotations == s.rotations + [Rotation(hash, s.clock)])
  {
    hide ChainsLinear, ChainsCover, RotatedOnce, Reaches;
    InitialInv();
    InvAlways(INITIAL, es, s);
    if hash in s.table {
      assert drawn !in s.table;
    }
  }

  lemma InitialInv()
    ensures Inv(INITIAL)
  {
  }

  /** No rotation of a run came before its token's issue or thirty days after it. */
  lemma RotationsInTime(es: seq<Event>, t: System, i: nat)
    requires Reaches(INITIAL, es, t) && i < |t.rotations|
    ensures var rotation := t.rotations[i];
            && rotation.hash in t.issuedAt
            && t.issuedAt[rotation.hash] <= rotation.at < t.issuedAt[rotation.hash] + 30 * 86_400
  {
    hide ChainsLinear, ChainsCover, Reaches;
    InitialInv();
    InvAlways(INITIAL, es, t);
  }

  ghost predicate NoLive(s: System, family: Family) {
    family in s.chains && forall h :: h in s.table && s.table[h].family == family ==> s.table[h].revokedAt.Some?
  }

  lemma {:induction false} NoLiveStays(s: System, family: Family, es: seq<Event>, t: System)
    requires NoLive(s, family) && Reaches(s, es, t)
    ensures NoLive(t, family)
    decreases |es|
  {
    if es != [] {
      NoLiveStays(Next(s, es[0]).value, family, es[1..], t);
    }
  }

  /** Revoking the live token of a family by logout ends the family: it never has a live token again. */
  lemma LogoutEndsFamily(before: seq<Event>, s: System, hash: Hash, after: seq<Event>, t: System, h: Hash)
    requires Reaches(INITIAL, before, s)
    requires hash in s.table && s.table[hash].revokedAt.None?
    requires Reaches(Next(s, Logout(hash)).value, after, t)
    requires h in t.table && t.table[h].family == s.table[hash].family
    ensures t.table[h].revokedAt.Some?
  {
    InvAlways(INITIAL, before, s);
    var family := s.table[hash].family;
    var s' := Next(s, Logout(hash)).value;
    forall k | k in s'.table && s'.table[k].family == family
      ensures s'.table[k].revokedAt.Some?
    {
      if k != hash {
        FamilyFacts(before, s, hash, k);
      }
    }
    NoLiveStays(s', family, after, t);
  }

  /** Expiry cleanup removes a prefix of each family's chain and nothing else. */
  lemma CleanupRemovesPrefix(es: seq<Event>, s: System, family: Family) returns (chain: seq<Hash>, k: nat)
    requires Reaches(INITIAL, es, s)
    ensures forall h :: h in s.table && s.table[h].family == family <==> h in chain
    ensures Linear(s.table, family, chain) && k <= |chain|
    ensures forall h :: h in Cleaned(s.table, s.clock) && s.table[h].family == family <==> h in chain[k..]
    ensures Linear(Cleaned(s.table, s.clock), family, chain[k..])
  {
    chain := FamiliesAreChains(es, s, family);
    k := SurvivingIsSuffix(s.table, chain, s.clock);
    CleanupLinear(s.table, family, chain, s.clock);
    forall h
      ensures h in Cleaned(s.table, s.clock) && s.table[h].family == family <==> h in chain[k..]
    {
      if h in chain[k..] {
        var i :| 0 <= i < |chain[k..]| && chain[k..][i] == h;
        assert chain[k + i] == h;
      }
    }
  }
}
