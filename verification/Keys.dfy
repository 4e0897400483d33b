/**
 The signing keys of the OAuth provider and their caches (plugins/oauthprovider/keys.go). A key pair is its secret, and
 the public half is an injective function of it; wrapping a private key is an exact inverse and is not modelled.
 */
module Keys {
  import opened Common
  import opened Ordering

  type Id = string

  datatype PublicKey = PublicKey(secret: nat)

  datatype KeyRow = KeyRow(id: Id, algorithm: string, secret: nat, createdAt: int, retiredAt: Option<int>)

  datatype Signer = Signer(id: Id, algorithm: string, secret: nat)

  /** What one instance holds between calls. */
  datatype Cache = Cache(verifiers: map<Id, PublicKey>, signer: Option<Signer>)

  const EMPTY := Cache(map[], None)

  // ---------- the rows

  /** The order of ListOAuthKeys: the newest row first. */
  predicate Newer(a: KeyRow, b: KeyRow) {
    a.createdAt > b.createdAt || (a.createdAt == b.createdAt && Less(b.id, a.id))
  }

  function Listed(rows: seq<KeyRow>): (list: seq<KeyRow>)
    ensures forall r :: r in list <==> r in rows
  {
    SortByMembers(rows, Newer);
    SortBy(rows, Newer)
  }

  lemma NewerChains()
    ensures Transitive(Newer)
  {
    forall a, b, c | Newer(a, b) && Newer(b, c) ensures Newer(a, c) {
      if a.createdAt == b.createdAt == c.createdAt {
        LessChains(c.id, b.id, a.id);
      }
    }
  }

  /** Rows with different identifiers are listed with the newest first. */
  lemma ListedIsNewestFirst(rows: seq<KeyRow>)
    requires UniqueIds(rows)
    ensures forall i, j | 0 <= i < j < |Listed(rows)| :: Newer(Listed(rows)[i], Listed(rows)[j])
    ensures multiset(Listed(rows)) == multiset(rows)
  {
    SortByKeeps(rows, Newer);
    NewerChains();
    forall i, j | 0 <= i < j < |rows| ensures Newer(rows[i], rows[j]) || Newer(rows[j], rows[i]) {
      LessIsTotal(rows[i].id, rows[j].id);
    }
    SortByAscends(rows, Newer);
  }

  predicate HasId(rows: seq<KeyRow>, id: Id) {
    exists r | r in rows :: r.id == id
  }

  function Retired(row: KeyRow, keep: Id, at: int): KeyRow {
    if row.id != keep && row.retiredAt.None? then row.(retiredAt := Some(at)) else row
  }

  function RetireOthers(rows: seq<KeyRow>, keep: Id, at: int): seq<KeyRow> {
    seq(|rows|, i requires 0 <= i < |rows| => Retired(rows[i], keep, at))
  }

  class KeyTable {
    var rows: seq<KeyRow>

    constructor ()
      ensures rows == []
    {
      rows := [];
    }

    method Create(row: KeyRow) returns (ok: bool)
      modifies this
      ensures ok <==> !HasId(old(rows), row.id)
      ensures rows == if ok then old(rows) + [row] else old(rows)
    {
      ok := !exists r | r in rows :: r.id == row.id;
      if ok {
        rows := rows + [row];
      }
    }

    method Retire(keep: Id, at: int)
      modifies this
      ensures rows == RetireOthers(old(rows), keep, at)
      ensures |rows| == |old(rows)|
      ensures forall i | 0 <= i < |rows| ::
                rows[i] == if old(rows)[i].id != keep && old(rows)[i].retiredAt == None
                           then old(rows)[i].(retiredAt := Some(at)) else old(rows)[i]
    {
      var out: seq<KeyRow> := [];
      for i := 0 to |rows|
        invariant rows == old(rows) && |out| == i
        invariant forall j | 0 <= j < i :: out[j] == Retired(rows[j], keep, at)
      {
        out := out + [Retired(rows[i], keep, at)];
      }
      rows := out;
    }
  }

  // ---------- loading

  predicate CanSign(row: KeyRow, algorithm: string) {
    row.retiredAt.None? && row.algorithm == algorithm
  }

  function FirstSigner(list: seq<KeyRow>, algorithm: string): Option<Signer> {
    if list == [] then None
    else if CanSign(list[0], algorithm) then Some(Signer(list[0].id, list[0].algorithm, list[0].secret))
    else FirstSigner(list[1..], algorithm)
  }

  function VerifiersOf(list: seq<KeyRow>): map<Id, PublicKey> {
    if list == [] then map[]
    else VerifiersOf(list[..|list| - 1])[list[|list| - 1].id := PublicKey(list[|list| - 1].secret)]
  }

  function Loaded(rows: seq<KeyRow>, algorithm: string): Cache {
    Cache(VerifiersOf(Listed(rows)), FirstSigner(Listed(rows), algorithm))
  }

  class Instance {
    const table: KeyTable
    const algorithm: string
    var verifiers: map<Id, PublicKey>
    var signer: Option<Signer>

    function State(): Cache
      reads this
    {
      Cache(verifiers, signer)
    }

    constructor (table: KeyTable, algorithm: string)
      ensures this.table == table && this.algorithm == algorithm && State() == EMPTY
    {
      this.table, this.algorithm, verifiers, signer := table, algorithm, map[], None;
    }

    method LoadKeys()
      modifies this
      ensures State() == Loaded(table.rows, algorithm)
    {
      var list := Listed(table.rows);
      var found: map<Id, PublicKey> := map[];
      var first: Option<Signer> := None;
      for i := 0 to |list|
        invariant found == VerifiersOf(list[..i])
        invariant FirstSigner(list, algorithm) == if first.Some? then first else FirstSigner(list[i..], algorithm)
      {
        assert list[..i + 1][..i] == list[..i] && list[i..][0] == list[i] && list[i..][1..] == list[i + 1..];
        var row := list[i];
        found := found[row.id := PublicKey(row.secret)];
        if row.retiredAt.Some? || first.Some? || row.algorithm != algorithm {
          continue;
        }
        first := Some(Signer(row.id, row.algorithm, row.secret));
      }
      assert list[..|list|] == list;
      verifiers := found;
      signer := first;
    }

    /** Inserts a new key. A rotation retires every other key. */
    method GenerateKey(id: Id, secret: nat, now: int, retireOthers: bool) returns (ok: bool)
      modifies this, table
      ensures ok <==> !HasId(old(table.rows), id)
      ensures !ok ==> table.rows == old(table.rows) && State() == old(State())
      ensures ok ==>
                var inserted := old(table.rows) + [KeyRow(id, algorithm, secret, now, None)];
                table.rows == (if retireOthers then RetireOthers(inserted, id, now) else inserted) &&
                State() == Loaded(table.rows, algorithm)
    {
      ok := table.Create(KeyRow(id, algorithm, secret, now, None));
      if ok {
        if retireOthers {
          table.Retire(id, now);
        }
        LoadKeys();
      }
    }

    /** The cached signer, or the one of the rows, or a new one. A conflict reads the rows again, and then gives up. */
    method SigningKey(id: Id, secret: nat, now: int) returns (r: Option<Signer>)
      modifies this, table
      ensures r == signer
      ensures r.Some? <==> old(signer).Some? || FirstSigner(Listed(old(table.rows)), algorithm).Some? ||
                           !HasId(old(table.rows), id)
      ensures old(signer).Some? ==> State() == old(State()) && table.rows == old(table.rows)
      ensures old(signer).None? ==>
                && State() == Loaded(table.rows, algorithm)
                && table.rows == if FirstSigner(Listed(old(table.rows)), algorithm).Some? || HasId(old(table.rows), id)
                                 then old(table.rows)
                                 else old(table.rows) + [KeyRow(id, algorithm, secret, now, None)]
    {
      if signer.None? {
        LoadKeys();
      }
      if signer.None? {
        var ok := GenerateKey(id, secret, now, false);
        if ok {
          assert KeyRow(id, algorithm, secret, now, None) in table.rows;
          SomeCanSign(Listed(table.rows), algorithm, KeyRow(id, algorithm, secret, now, None));
        } else {
          LoadKeys();
        }
      }
      r := signer;
    }

    /** On a lone instance a successful rotation leaves exactly one unretired key, and it is the signer. */
    method Rotate(id: Id, secret: nat, now: int) returns (ok: bool)
      modifies this, table
      ensures ok <==> !HasId(old(table.rows), id)
      ensures ok ==> signer == Some(Signer(id, algorithm, secret))
      ensures ok ==> forall r | r in table.rows :: r.retiredAt.None? <==> r.id == id
      ensures ok ==> |table.rows| == |old(table.rows)| + 1
    {
      signer := None;
      ok := GenerateKey(id, secret, now, true);
      if ok {
        OnlyNewIsLive(old(table.rows), KeyRow(id, algorithm, secret, now, None), now);
        OnlyOneCanSign(Listed(table.rows), algorithm, KeyRow(id, algorithm, secret, now, None));
      }
    }

    /** The public key of an identifier. A miss reads the rows again. */
    method Verifier(kid: Id) returns (r: Option<PublicKey>)
      modifies this
      ensures kid in old(verifiers) ==> r == Some(old(verifiers[kid])) && State() == old(State())
      ensures kid !in old(verifiers) ==>
                State() == Loaded(table.rows, algorithm) && r == if kid in verifiers then Some(verifiers[kid]) else None
    {
      if kid in verifiers {
        return Some(verifiers[kid]);
      }
      LoadKeys();
      return if kid in verifiers then Some(verifiers[kid]) else None;
    }
  }

  lemma {:induction false} SomeCanSign(list: seq<KeyRow>, algorithm: string, row: KeyRow)
    requires row in list && CanSign(row, algorithm)
    ensures FirstSigner(list, algorithm).Some?
  {
    if !CanSign(list[0], algorithm) {
      SomeCanSign(list[1..], algorithm, row);
    }
  }

  lemma {:induction false} OnlyOneCanSign(list: seq<KeyRow>, algorithm: string, row: KeyRow)
    requires row in list && CanSign(row, algorithm) && forall r | r in list && CanSign(r, algorithm) :: r == row
    ensures FirstSigner(list, algorithm) == Some(Signer(row.id, row.algorithm, row.secret))
  {
    assert list[0] in list;
    if !CanSign(list[0], algorithm) {
      OnlyOneCanSign(list[1..], algorithm, row);
    }
  }

  lemma OnlyNewIsLive(rows: seq<KeyRow>, row: KeyRow, at: int)
    requires !HasId(rows, row.id) && row.retiredAt.None?
    ensures row in RetireOthers(rows + [row], row.id, at)
    ensures forall r | r in RetireOthers(rows + [row], row.id, at) ::
              (r.retiredAt.None? <==> r.id == row.id) && (r.id == row.id ==> r == row)
  {
    var after := RetireOthers(rows + [row], row.id, at);
    assert after[|rows|] == row;
    forall i | 0 <= i < |rows| ensures rows[i].id != row.id && after[i] == Retired(rows[i], row.id, at) {
      assert rows[i] in rows;
    }
  }

  // ---------- any number of instances

  /** Every step of every instance is one row statement or one reload; rows are never deleted. */
  datatype Event =
    | Insert(row: KeyRow)
    | Retire(keep: Id, at: int)
    | Reload(i: int)
    | Forget(i: int)
    | Sign(i: int)

  /** A token that some instance signed, and the key that matches its signature. */
  datatype Signed = Signed(kid: Id, matching: PublicKey)

  datatype System = System(rows: seq<KeyRow>, algorithms: map<int, string>, caches: map<int, Cache>, signed: set<Signed>)

  predicate Enabled(s: System, e: Event) {
    match e
    case Insert(row) => !HasId(s.rows, row.id) && row.retiredAt.None?
    case Retire(_, _) => true
    case Reload(i) => i in s.caches && i in s.algorithms
    case Forget(i) => i in s.caches
    case Sign(i) => i in s.caches && s.caches[i].signer.Some?
  }

  function Apply(s: System, e: Event): System
    requires Enabled(s, e)
  {
    match e
    case Insert(row) => s.(rows := s.rows + [row])
    case Retire(keep, at) => s.(rows := RetireOthers(s.rows, keep, at))
    case Reload(i) => s.(caches := s.caches[i := Loaded(s.rows, s.algorithms[i])])
    case Forget(i) => s.(caches := s.caches[i := s.caches[i].(signer := None)])
    case Sign(i) =>
      var k := s.caches[i].signer.value;
      s.(signed := s.signed + {Signed(k.id, PublicKey(k.secret))})
  }

  ghost predicate IsRun(s: System, events: seq<Event>, t: System)
    decreases |events|
  {
    if events == [] then t == s else Enabled(s, events[0]) && IsRun(Apply(s, events[0]), events[1..], t)
  }

  /** The row of an identifier has this key. */
  predicate Holds(rows: seq<KeyRow>, id: Id, key: PublicKey) {
    exists r | r in rows :: r.id == id && PublicKey(r.secret) == key
  }

  ghost predicate UniqueIds(rows: seq<KeyRow>) {
    forall i, j | 0 <= i < j < |rows| :: rows[i].id != rows[j].id
  }

  ghost predicate Inv(s: System) {
    && UniqueIds(s.rows)
    && (forall i, kid | i in s.caches && kid in s.caches[i].verifiers :: Holds(s.rows, kid, s.caches[i].verifiers[kid]))
    && (forall i | i in s.caches && s.caches[i].signer.Some? ::
          Holds(s.rows, s.caches[i].signer.value.id, PublicKey(s.caches[i].signer.value.secret)))
    && (forall t | t in s.signed :: Holds(s.rows, t.kid, t.matching))
  }

  lemma {:induction false} VerifiersAre(list: seq<KeyRow>)
    ensures forall kid | kid in VerifiersOf(list) :: Holds(list, kid, VerifiersOf(list)[kid])
    ensures forall r | r in list :: r.id in VerifiersOf(list)
  {
    if list != [] {
      var init, last := list[..|list| - 1], list[|list| - 1];
      VerifiersAre(init);
      assert list == init + [last] && last in list;
      forall kid | kid in VerifiersOf(list) ensures Holds(list, kid, VerifiersOf(list)[kid]) {
        if kid != last.id {
          assert list[..|list| - 1] == init && kid in VerifiersOf(init);
          assert Holds(init, kid, VerifiersOf(init)[kid]);
          var r :| r in init && r.id == kid && PublicKey(r.secret) == VerifiersOf(init)[kid];
          assert r in list;
        }
      }
    }
  }

  lemma {:induction false} SignerIsRow(list: seq<KeyRow>, algorithm: string)
    ensures var k := FirstSigner(list, algorithm); k.Some? ==> Holds(list, k.value.id, PublicKey(k.value.secret))
  {
    if list != [] {
      assert list[0] in list;
      SignerIsRow(list[1..], algorithm);
      assert forall r | r in list[1..] :: r in list;
    }
  }

  lemma LoadedIsGood(rows: seq<KeyRow>, algorithm: string)
    ensures var c := Loaded(rows, algorithm);
            && (forall kid | kid in c.verifiers :: Holds(rows, kid, c.verifiers[kid]))
            && (c.signer.Some? ==> Holds(rows, c.signer.value.id, PublicKey(c.signer.value.secret)))
            && (forall r | r in rows :: r.id in c.verifiers)
  {
    VerifiersAre(Listed(rows));
    SignerIsRow(Listed(rows), algorithm);
    assert forall id, key :: Holds(Listed(rows), id, key) ==> Holds(rows, id, key);
  }

  lemma {:induction false} FirstSignerIs(list: seq<KeyRow>, algorithm: string)
    ensures FirstSigner(list, algorithm).None? <==> forall r | r in list :: r.retiredAt.Some? || r.algorithm != algorithm
    ensures FirstSigner(list, algorithm).Some? ==>
              exists i :: 0 <= i < |list| && list[i].retiredAt.None? && list[i].algorithm == algorithm &&
                          FirstSigner(list, algorithm) == Some(Signer(list[i].id, algorithm, list[i].secret)) &&
                          forall j | 0 <= j < i :: list[j].retiredAt.Some? || list[j].algorithm != algorithm
  {
    if list != [] {
      var rest := list[1..];
      FirstSignerIs(rest, algorithm);
      assert forall r :: r in list <==> r == list[0] || r in rest;
      if CanSign(list[0], algorithm) {
        assert list[0].retiredAt.None?;
      } else if FirstSigner(rest, algorithm).Some? {
        var i :| 0 <= i < |rest| && rest[i].retiredAt.None? && rest[i].algorithm == algorithm &&
                 FirstSigner(rest, algorithm) == Some(Signer(rest[i].id, algorithm, rest[i].secret)) &&
                 forall j | 0 <= j < i :: rest[j].retiredAt.Some? || rest[j].algorithm != algorithm;
        assert list[i + 1] == rest[i];
        assert forall j | 0 <= j < i + 1 :: j > 0 ==> list[j] == rest[j - 1];
      }
    }
  }

  /**
   Loading finds the public key of every row, also of a retired one. The signer is the newest unretired row of the algorithm,
   if there is one; of rows from one instant, the one with the greatest identifier.
   */
  lemma LoadedMeans(rows: seq<KeyRow>, algorithm: string)
    requires UniqueIds(rows)
    ensures forall kid :: kid in Loaded(rows, algorithm).verifiers <==> HasId(rows, kid)
    ensures forall r | r in rows ::
              r.id in Loaded(rows, algorithm).verifiers && Loaded(rows, algorithm).verifiers[r.id] == PublicKey(r.secret)
    ensures Loaded(rows, algorithm).signer.None? <==>
            forall r | r in rows :: r.retiredAt.Some? || r.algorithm != algorithm
    ensures Loaded(rows, algorithm).signer.Some? ==>
              exists r :: r in rows && r.retiredAt.None? && r.algorithm == algorithm &&
                          Loaded(rows, algorithm).signer == Some(Signer(r.id, algorithm, r.secret)) &&
                          forall q | q in rows && q.retiredAt.None? && q.algorithm == algorithm && q != r ::
                            q.createdAt < r.createdAt || (q.createdAt == r.createdAt && Precedes(q.id, r.id))
  {
    VerifiersMean(rows, algorithm);
    SignerMeans(rows, algorithm);
    hide *;
  }

  lemma VerifiersMean(rows: seq<KeyRow>, algorithm: string)
    requires UniqueIds(rows)
    ensures forall kid :: kid in Loaded(rows, algorithm).verifiers <==> HasId(rows, kid)
    ensures forall r | r in rows ::
              r.id in Loaded(rows, algorithm).verifiers && Loaded(rows, algorithm).verifiers[r.id] == PublicKey(r.secret)
  {
    LoadedIsGood(rows, algorithm);
    hide UniqueIds, Loaded;
    forall kid | kid in Loaded(rows, algorithm).verifiers ensures HasId(rows, kid) {
      assert Holds(rows, kid, Loaded(rows, algorithm).verifiers[kid]);
    }
    forall r | r in rows ensures Loaded(rows, algorithm).verifiers[r.id] == PublicKey(r.secret) {
      assert Holds(rows, r.id, PublicKey(r.secret));
      OneKeyPerId(rows, r.id, PublicKey(r.secret), Loaded(rows, algorithm).verifiers[r.id]);
    }
  }

  lemma NewerMeans(r: KeyRow, q: KeyRow)
    ensures Newer(r, q) <==> q.createdAt < r.createdAt || (q.createdAt == r.createdAt && Precedes(q.id, r.id))
  {
    LessIsPrecedes(q.id, r.id);
  }

  /** The row that comes first among those that may sign is the newest of them. */
  lemma FirstIsNewest(rows: seq<KeyRow>, algorithm: string, i: nat)
    requires UniqueIds(rows) && i < |Listed(rows)|
    requires forall j | 0 <= j < i :: Listed(rows)[j].retiredAt.Some? || Listed(rows)[j].algorithm != algorithm
    ensures forall q | q in rows && q.retiredAt.None? && q.algorithm == algorithm && q != Listed(rows)[i] ::
              Newer(Listed(rows)[i], q)
  {
    ListedIsNewestFirst(rows);
    hide *;
    forall q | q in rows && q.retiredAt.None? && q.algorithm == algorithm && q != Listed(rows)[i]
      ensures Newer(Listed(rows)[i], q)
    {
      assert q in Listed(rows);
      var j :| 0 <= j < |Listed(rows)| && Listed(rows)[j] == q;
    }
  }

  lemma SignerMeans(rows: seq<KeyRow>, algorithm: string)
    requires UniqueIds(rows)
    ensures Loaded(rows, algorithm).signer.None? <==>
            forall r | r in rows :: r.retiredAt.Some? || r.algorithm != algorithm
    ensures Loaded(rows, algorithm).signer.Some? ==>
              exists r :: r in rows && r.retiredAt.None? && r.algorithm == algorithm &&
                          Loaded(rows, algorithm).signer == Some(Signer(r.id, algorithm, r.secret)) &&
                          forall q | q in rows && q.retiredAt.None? && q.algorithm == algorithm && q != r ::
                            q.createdAt < r.createdAt || (q.createdAt == r.createdAt && Precedes(q.id, r.id))
  {
    var list := Listed(rows);
    FirstSignerIs(list, algorithm);
    hide UniqueIds, VerifiersOf, FirstSigner, Precedes, Listed, Newer;
    if Loaded(rows, algorithm).signer.Some? {
      var i :| 0 <= i < |list| && list[i].retiredAt.None? && list[i].algorithm == algorithm &&
               FirstSigner(list, algorithm) == Some(Signer(list[i].id, algorithm, list[i].secret)) &&
               forall j | 0 <= j < i :: list[j].retiredAt.Some? || list[j].algorithm != algorithm;
      FirstIsNewest(rows, algorithm, i);
      assert list[i] in rows;
      forall q | q in rows && q.retiredAt.None? && q.algorithm == algorithm && q != list[i]
        ensures q.createdAt < list[i].createdAt || (q.createdAt == list[i].createdAt && Precedes(q.id, list[i].id))
      {
        NewerMeans(list[i], q);
      }
    }
  }

  /** Every row of before is there after, with its key. */
  ghost predicate KeepsKeys(before: seq<KeyRow>, after: seq<KeyRow>) {
    forall id, key | Holds(before, id, key) :: Holds(after, id, key)
  }

  lemma InsertKeepsKeys(rows: seq<KeyRow>, row: KeyRow)
    requires UniqueIds(rows) && !HasId(rows, row.id)
    ensures KeepsKeys(rows, rows + [row]) && UniqueIds(rows + [row])
  {
    assert forall i | 0 <= i < |rows| :: rows[i] in rows;
    assert forall r | r in rows :: r in rows + [row];
  }

  lemma RetireKeepsKeys(rows: seq<KeyRow>, keep: Id, at: int)
    requires UniqueIds(rows)
    ensures KeepsKeys(rows, RetireOthers(rows, keep, at)) && UniqueIds(RetireOthers(rows, keep, at))
  {
    var after := RetireOthers(rows, keep, at);
    forall id, key | Holds(rows, id, key) ensures Holds(after, id, key) {
      var r :| r in rows && r.id == id && PublicKey(r.secret) == key;
      var i :| 0 <= i < |rows| && rows[i] == r;
      assert after[i] in after && after[i].id == id;
    }
  }

  lemma EventKeeps(s: System, e: Event)
    requires Inv(s) && Enabled(s, e)
    ensures Inv(Apply(s, e)) && KeepsKeys(s.rows, Apply(s, e).rows)
  {
    match e
    case Insert(row) =>
      InsertKeepsKeys(s.rows, row);
      hide Holds, UniqueIds, HasId;
    case Retire(keep, at) =>
      RetireKeepsKeys(s.rows, keep, at);
      hide Holds, UniqueIds, RetireOthers;
    case Reload(i) =>
      LoadedIsGood(s.rows, s.algorithms[i]);
      hide Holds, UniqueIds, Loaded;
    case _ =>
      hide Holds, UniqueIds;
  }

  lemma {:induction false} RunKeeps(s: System, events: seq<Event>, t: System)
    requires Inv(s) && IsRun(s, events, t)
    ensures Inv(t)
    decreases |events|
  {
    if events != [] {
      hide Inv, Apply, Enabled, KeepsKeys;
      EventKeeps(s, events[0]);
      RunKeeps(Apply(s, events[0]), events[1..], t);
    }
  }

  /** What Verifier answers on one instance. */
  function VerifierOf(s: System, i: int, kid: Id): Option<PublicKey>
    requires i in s.caches && i in s.algorithms
  {
    if kid in s.caches[i].verifiers then Some(s.caches[i].verifiers[kid])
    else
      var c := Loaded(s.rows, s.algorithms[i]);
      if kid in c.verifiers then Some(c.verifiers[kid]) else None
  }

  function Start(algorithms: map<int, string>): System {
    System([], algorithms, map i | i in algorithms :: EMPTY, {})
  }

  lemma OneKeyPerId(rows: seq<KeyRow>, id: Id, a: PublicKey, b: PublicKey)
    requires UniqueIds(rows) && Holds(rows, id, a) && Holds(rows, id, b)
    ensures a == b
  {
    var r :| r in rows && r.id == id && PublicKey(r.secret) == a;
    var q :| q in rows && q.id == id && PublicKey(q.secret) == b;
    var i :| 0 <= i < |rows| && rows[i] == r;
    var j :| 0 <= j < |rows| && rows[j] == q;
  }

  /**
   However instances insert, retire, reload, forget and sign, every identifier that any of them ever signed with resolves
   on every instance, to the key that matches the signature. All cached keys are keys of the rows.
   */
  lemma SignedResolvesEverywhere(algorithms: map<int, string>, events: seq<Event>, t: System, token: Signed, i: int)
    requires IsRun(Start(algorithms), events, t) && token in t.signed && i in t.caches && i in t.algorithms
    ensures VerifierOf(t, i, token.kid) == Some(token.matching)
    ensures forall kid | kid in t.caches[i].verifiers :: Holds(t.rows, kid, t.caches[i].verifiers[kid])
  {
    assert Inv(Start(algorithms));
    RunKeeps(Start(algorithms), events, t);
    LoadedIsGood(t.rows, t.algorithms[i]);
    assert Holds(t.rows, token.kid, token.matching);
    var r :| r in t.rows && r.id == token.kid && PublicKey(r.secret) == token.matching;
    hide IsRun, Holds, UniqueIds, Loaded;
    if token.kid in t.caches[i].verifiers {
      OneKeyPerId(t.rows, token.kid, token.matching, t.caches[i].verifiers[token.kid]);
    } else {
      OneKeyPerId(t.rows, token.kid, token.matching, Loaded(t.rows, t.algorithms[i]).verifiers[token.kid]);
    }
  }

  // ---------- rotations that cross

  /** A row of the identifier is unretired. */
  predicate IsLive(rows: seq<KeyRow>, id: Id) {
    exists r | r in rows :: r.id == id && r.retiredAt.None?
  }

  /** No retirement keeps another key only. */
  predicate Spares(events: seq<Event>, id: Id) {
    forall j | 0 <= j < |events| && events[j].Retire? :: events[j].keep == id
  }

  /** The key is inserted, and no other key's retirement follows. */
  ghost predicate Survives(events: seq<Event>, id: Id) {
    exists i :: 0 <= i < |events| && events[i].Insert? && events[i].row.id == id && Spares(events[i..], id)
  }

  lemma SparesFirst(events: seq<Event>, id: Id)
    requires events != []
    ensures Spares(events, id) <==> (events[0].Retire? ==> events[0].keep == id) && Spares(events[1..], id)
  {
    assert forall j | 1 <= j < |events| :: events[j] == events[1..][j - 1];
    assert forall j | 0 <= j < |events| - 1 :: events[1..][j] == events[j + 1];
  }

  lemma SurvivesFirst(events: seq<Event>, id: Id)
    requires events != []
    ensures Survives(events, id) <==>
            (events[0].Insert? && events[0].row.id == id && Spares(events[1..], id)) || Survives(events[1..], id)
  {
    SparesFirst(events, id);
    hide Spares;
    if i :| 0 <= i < |events| && events[i].Insert? && events[i].row.id == id && Spares(events[i..], id) {
      if i > 0 {
        assert events[1..][i - 1] == events[i] && events[1..][i - 1..] == events[i..];
      } else {
        assert events[0..] == events;
      }
    }
    if events[0].Insert? && events[0].row.id == id && Spares(events[1..], id) {
      assert events[0..] == events;
    }
    if i :| 0 <= i < |events[1..]| && events[1..][i].Insert? && events[1..][i].row.id == id &&
            Spares(events[1..][i..], id) {
      assert events[i + 1] == events[1..][i] && events[i + 1..] == events[1..][i..];
    }
  }

  lemma RetireLive(rows: seq<KeyRow>, keep: Id, at: int, id: Id)
    ensures IsLive(RetireOthers(rows, keep, at), id) <==> IsLive(rows, id) && id == keep
  {
    var after := RetireOthers(rows, keep, at);
    if r :| r in rows && r.id == id && r.retiredAt.None? {
      var i :| 0 <= i < |rows| && rows[i] == r;
      assert after[i] == Retired(r, keep, at);
      assert id == keep ==> after[i] in after && after[i].id == id && after[i].retiredAt.None?;
    }
    if r :| r in after && r.id == id && r.retiredAt.None? {
      var i :| 0 <= i < |after| && after[i] == r;
      assert rows[i] in rows && after[i] == Retired(rows[i], keep, at);
    }
  }

  lemma LiveStep(s: System, e: Event, id: Id)
    requires Enabled(s, e)
    ensures IsLive(Apply(s, e).rows, id) <==>
            (IsLive(s.rows, id) && (e.Retire? ==> e.keep == id)) || (e.Insert? && e.row.id == id)
  {
    match e
    case Insert(row) =>
      assert forall r :: r in s.rows + [row] <==> r in s.rows || r == row;
    case Retire(keep, at) => RetireLive(s.rows, keep, at, id);
    case _ =>
  }

  lemma {:induction false} LiveIffSurvives(s: System, events: seq<Event>, t: System, id: Id)
    requires IsRun(s, events, t)
    ensures IsLive(t.rows, id) <==> (IsLive(s.rows, id) && Spares(events, id)) || Survives(events, id)
    decreases |events|
  {
    if events != [] {
      LiveStep(s, events[0], id);
      SparesFirst(events, id);
      SurvivesFirst(events, id);
      hide IsLive, Spares, Survives, Apply, Enabled;
      LiveIffSurvives(Apply(s, events[0]), events[1..], t, id);
    }
  }

  /**
   In every run of any number of instances, a key is unretired exactly when no other key's retirement follows its
   insertion.
   */
  lemma UnretiredIff(algorithms: map<int, string>, events: seq<Event>, t: System, id: Id)
    requires IsRun(Start(algorithms), events, t)
    ensures IsLive(t.rows, id) <==> Survives(events, id)
  {
    hide Spares, Survives, IsRun;
    LiveIffSurvives(Start(algorithms), events, t, id);
  }

  /** Every key comes from a rotation, and every rotation has finished: its retirement follows its insertion. */
  ghost predicate AllRotated(events: seq<Event>) {
    && (forall j | 0 <= j < |events| && events[j].Retire? ::
          exists i :: 0 <= i < j && events[i].Insert? && events[i].row.id == events[j].keep)
    && (forall i | 0 <= i < |events| && events[i].Insert? ::
          exists j :: i < j < |events| && events[j].Retire? && events[j].keep == events[i].row.id)
  }

  /** The event is the last insertion. */
  predicate IsLastInsert(events: seq<Event>, last: nat) {
    last < |events| && events[last].Insert? && forall j | last < j < |events| :: !events[j].Insert?
  }

  /** Only the key that was inserted last can survive finished rotations. */
  lemma OnlyLastSurvives(events: seq<Event>, last: nat, id: Id)
    requires AllRotated(events) && IsLastInsert(events, last)
    ensures Survives(events, id) <==> id == events[last].row.id && Spares(events[last..], id)
  {
    var j := RetiredLater(events, last);
    hide AllRotated;
    if Survives(events, id) {
      var i :| 0 <= i < |events| && events[i].Insert? && events[i].row.id == id && Spares(events[i..], id);
      assert i <= last;
      hide IsLastInsert, Survives;
      SparesSuffix(events, i, last, id);
      SparesAt(events, last, j, id);
    }
  }

  lemma SparesSuffix(events: seq<Event>, i: nat, last: nat, id: Id)
    requires i <= last < |events| && Spares(events[i..], id)
    ensures Spares(events[last..], id)
  {
    forall k | 0 <= k < |events[last..]| && events[last..][k].Retire? ensures events[last..][k].keep == id {
      assert events[last..][k] == events[i..][last - i + k];
    }
  }

  lemma SparesAt(events: seq<Event>, i: nat, j: nat, id: Id)
    requires i <= j < |events| && Spares(events[i..], id) && events[j].Retire?
    ensures events[j].keep == id
  {
    assert events[i..][j - i] == events[j];
  }

  lemma RetiredLater(events: seq<Event>, i: nat) returns (j: nat)
    requires AllRotated(events) && i < |events| && events[i].Insert?
    ensures i < j < |events| && events[j].Retire? && events[j].keep == events[i].row.id
  {
    j :| i < j < |events| && events[j].Retire? && events[j].keep == events[i].row.id;
  }

  /**
   Finished rotations leave exactly one unretired key, the one inserted last, if its insertion follows the retirements of
   all other rotations; otherwise they leave none.
   */
  lemma OneKeyIff(algorithms: map<int, string>, events: seq<Event>, t: System, last: nat)
    requires IsRun(Start(algorithms), events, t) && AllRotated(events) && IsLastInsert(events, last)
    ensures var id := events[last].row.id;
            if Spares(events[last..], id) then forall k :: IsLive(t.rows, k) <==> k == id
            else forall k :: !IsLive(t.rows, k)
  {
    hide IsRun, IsLive, AllRotated, Survives, Spares;
    forall k ensures IsLive(t.rows, k) <==> k == events[last].row.id && Spares(events[last..], events[last].row.id) {
      UnretiredIff(algorithms, events, t, k);
      OnlyLastSurvives(events, last, k);
    }
  }

  /** Two rotations of two instances that cross: both keys are inserted before either retires the other. */
  function Crossing(a: KeyRow, b: KeyRow, at: int): seq<Event> {
    [Insert(a), Insert(b), Retire(a.id, at), Retire(b.id, at)]
  }

  /** Such rotations retire each other's key, and then no instance finds a signer until a new key is made. */
  lemma RotationsCanCross(algorithms: map<int, string>, a: KeyRow, b: KeyRow, at: int) returns (t: System)
    requires a.id != b.id && a.retiredAt.None? && b.retiredAt.None?
    ensures IsRun(Start(algorithms), Crossing(a, b, at), t)
    ensures forall id :: !IsLive(t.rows, id)
    ensures forall algorithm :: Loaded(t.rows, algorithm).signer.None?
  {
    t := CrossingRun(algorithms, a, b, at);
    CrossedIsRotated(a, b, at);
    hide AllRotated, Spares, Crossing, Loaded, IsLive, IsRun, Start;
    OneKeyIff(algorithms, Crossing(a, b, at), t, 1);
    NobodyIsLive(t.rows);
  }

  lemma CrossingRun(algorithms: map<int, string>, a: KeyRow, b: KeyRow, at: int) returns (t: System)
    requires a.id != b.id && a.retiredAt.None? && b.retiredAt.None?
    ensures IsRun(Start(algorithms), Crossing(a, b, at), t)
  {
    var es := Crossing(a, b, at);
    var s1 := Apply(Start(algorithms), es[0]);
    assert s1.rows == [a];
    var s2 := Apply(s1, es[1]);
    var s3 := Apply(s2, es[2]);
    t := Apply(s3, es[3]);
    assert Enabled(s2, es[2]) && Enabled(s3, es[3]);
    assert es == [es[0]] + ([es[1]] + ([es[2]] + ([es[3]] + [])));
    hide Apply, Crossing, HasId, Enabled, Start;
    RunCons(s3, es[3], [], t);
    RunCons(s2, es[2], [es[3]] + [], t);
    RunCons(s1, es[1], [es[2]] + ([es[3]] + []), t);
    RunCons(Start(algorithms), es[0], [es[1]] + ([es[2]] + ([es[3]] + [])), t);
  }

  lemma RunCons(s: System, e: Event, rest: seq<Event>, t: System)
    requires Enabled(s, e) && IsRun(Apply(s, e), rest, t)
    ensures IsRun(s, [e] + rest, t)
  {
    hide Apply, Enabled;
    assert ([e] + rest)[1..] == rest;
  }

  lemma CrossedIsRotated(a: KeyRow, b: KeyRow, at: int)
    requires a.id != b.id
    ensures var es := Crossing(a, b, at);
            AllRotated(es) && IsLastInsert(es, 1) && es[1] == Insert(b) && !Spares(es[1..], b.id)
  {
    var es := Crossing(a, b, at);
    assert es[0] == Insert(a) && es[1] == Insert(b) && es[2] == Retire(a.id, at) && es[3] == Retire(b.id, at);
    assert es[1..][1] == es[2];
  }

  lemma NobodyIsLive(rows: seq<KeyRow>)
    requires forall id :: !IsLive(rows, id)
    ensures forall algorithm :: Loaded(rows, algorithm).signer.None?
  {
    forall r | r in rows ensures r.retiredAt.Some? {
      assert !IsLive(rows, r.id);
    }
    forall algorithm ensures Loaded(rows, algorithm).signer.None? {
      NobodySigns(Listed(rows), algorithm);
    }
  }

  lemma {:induction false} NobodySigns(list: seq<KeyRow>, algorithm: string)
    requires forall r | r in list :: r.retiredAt.Some?
    ensures FirstSigner(list, algorithm).None?
  {
    if list != [] {
      assert list[0] in list && forall r | r in list[1..] :: r in list;
      NobodySigns(list[1..], algorithm);
    }
  }
}
