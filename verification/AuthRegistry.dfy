/** Authentication schemes and the API keys that belong to them. Scheme names are compared without regard to case. */
module AuthRegistry {
  import opened Collections
  import opened Identifiers

  datatype Kind = ApiKey | JwtHs256

  datatype Auth = Auth(name: string, kind: Kind, header: string, secret: string)

  /** `hash` is the SHA-256 of the key; the key itself is not kept. */
  datatype KeyEntry = KeyEntry(authName: string, hash: string, subject: string)

  datatype State = State(auths: seq<Auth>, keys: seq<KeyEntry>)

  datatype Reply = Done | Refused

  /** The first scheme of that name. */
  function Find(auths: seq<Auth>, name: string): (i: Option<nat>)
    ensures i.Some? ==> i.value < |auths| && SameIdentifier(auths[i.value].name, name)
    ensures i.None? ==> forall j | 0 <= j < |auths| :: !SameIdentifier(auths[j].name, name)
  {
    if auths == [] then None
    else if SameIdentifier(auths[0].name, name) then Some(0)
    else match Find(auths[1..], name)
      case Some(i) => assert auths[1..][i] == auths[i + 1]; Some(i + 1)
      case None => assert forall j | 0 < j < |auths| :: auths[j] == auths[1..][j - 1]; None
  }

  function Without(keys: seq<KeyEntry>, name: string): seq<KeyEntry> {
    if keys == [] then []
    else if SameIdentifier(keys[0].authName, name) then Without(keys[1..], name)
    else [keys[0]] + Without(keys[1..], name)
  }

  function RenamedKey(k: KeyEntry, was: string, name: string): KeyEntry {
    if SameIdentifier(k.authName, was) then k.(authName := name) else k
  }

  function Renamed(keys: seq<KeyEntry>, was: string, name: string): seq<KeyEntry> {
    seq(|keys|, i requires 0 <= i < |keys| => RenamedKey(keys[i], was, name))
  }

  predicate SameKey(a: KeyEntry, b: KeyEntry) {
    SameIdentifier(a.authName, b.authName) && a.hash == b.hash
  }

  /** Adding a key again only gives it the new subject. */
  function Stored(keys: seq<KeyEntry>, entry: KeyEntry): seq<KeyEntry> {
    if keys == [] then [entry]
    else if SameKey(keys[0], entry) then [entry] + keys[1..]
    else [keys[0]] + Stored(keys[1..], entry)
  }

  function KeysAfter(keys: seq<KeyEntry>, was: Auth, auth: Auth): seq<KeyEntry> {
    if was.kind.ApiKey? && !auth.kind.ApiKey? then Without(keys, was.name)
    else if was.name != auth.name then Renamed(keys, was.name, auth.name)
    else keys
  }

  datatype Ddl =
    | CreateAuth(auth: Auth, replace: bool)
    | DropAuth(name: string)
    | AddKey(authName: string, rawKey: string, hash: string, subject: string)

  function Create(s: State, auth: Auth, replace: bool): (State, Reply) {
    match Find(s.auths, auth.name)
    case None => (s.(auths := s.auths + [auth]), Done)
    case Some(i) =>
      if replace then (State(s.auths[i := auth], KeysAfter(s.keys, s.auths[i], auth)), Done) else (s, Refused)
  }

  function Drop(s: State, name: string): (State, Reply) {
    match Find(s.auths, name)
    case None => (s, Refused)
    case Some(i) => (State(s.auths[..i] + s.auths[i + 1..], Without(s.keys, s.auths[i].name)), Done)
  }

  function Add(s: State, authName: string, rawKey: string, hash: string, subject: string): (State, Reply) {
    if rawKey == [] || subject == [] then (s, Refused)
    else match Find(s.auths, authName)
      case None => (s, Refused)
      case Some(i) =>
        if s.auths[i].kind.ApiKey? then (s.(keys := Stored(s.keys, KeyEntry(s.auths[i].name, hash, subject))), Done)
        else (s, Refused)
  }

  function Apply(s: State, d: Ddl): (State, Reply) {
    match d
    case CreateAuth(auth, replace) => Create(s, auth, replace)
    case DropAuth(name) => Drop(s, name)
    case AddKey(authName, rawKey, hash, subject) => Add(s, authName, rawKey, hash, subject)
  }

  // ---------------------------------------------------------------- the invariant

  ghost predicate DistinctNames(auths: seq<Auth>) {
    forall i, j | 0 <= i < j < |auths| :: !SameIdentifier(auths[i].name, auths[j].name)
  }

  /** A live API_KEY scheme has exactly this name. */
  ghost predicate Owned(auths: seq<Auth>, k: KeyEntry) {
    exists i | 0 <= i < |auths| :: auths[i].name == k.authName && auths[i].kind.ApiKey?
  }

  ghost predicate DistinctKeys(keys: seq<KeyEntry>) {
    forall i, j | 0 <= i < j < |keys| :: !SameKey(keys[i], keys[j])
  }

  ghost predicate Consistent(s: State) {
    DistinctNames(s.auths) && DistinctKeys(s.keys) && forall k | k in s.keys :: Owned(s.auths, k)
  }

  /** `Without` keeps exactly the keys of other schemes. */
  lemma {:induction false} WithoutKeeps(keys: seq<KeyEntry>, name: string)
    requires DistinctKeys(keys)
    ensures forall k :: k in Without(keys, name) <==> k in keys && !SameIdentifier(k.authName, name)
    ensures DistinctKeys(Without(keys, name))
  {
    if keys != [] {
      assert keys == [keys[0]] + keys[1..];
      TailDistinct(keys);
      WithoutKeeps(keys[1..], name);
      var rest := Without(keys[1..], name);
      assert forall i | 0 <= i < |rest| :: rest[i] in keys[1..];
    }
  }

  lemma TailDistinct(keys: seq<KeyEntry>)
    requires keys != [] && DistinctKeys(keys)
    ensures DistinctKeys(keys[1..]) && forall k | k in keys[1..] :: !SameKey(keys[0], k)
  {
    assert forall i | 0 < i < |keys| :: keys[i] == keys[1..][i - 1];
  }

  lemma {:induction false} StoredKeeps(keys: seq<KeyEntry>, entry: KeyEntry)
    requires DistinctKeys(keys)
    ensures DistinctKeys(Stored(keys, entry))
    ensures forall k :: k in Stored(keys, entry) <==> k == entry || (k in keys && !SameKey(k, entry))
  {
    if keys != [] {
      assert keys == [keys[0]] + keys[1..];
      TailDistinct(keys);
      if !SameKey(keys[0], entry) {
        StoredKeeps(keys[1..], entry);
        var rest := Stored(keys[1..], entry);
        assert forall i | 0 <= i < |rest| :: rest[i] in rest;
      }
    }
  }

  lemma RenamedKeeps(keys: seq<KeyEntry>, was: string, name: string)
    requires DistinctKeys(keys) && SameIdentifier(was, name)
    ensures DistinctKeys(Renamed(keys, was, name))
    ensures forall k | k in Renamed(keys, was, name) :: exists k0 | k0 in keys :: k == RenamedKey(k0, was, name)
  {
    var r := Renamed(keys, was, name);
    forall k | k in r ensures exists k0 | k0 in keys :: k == RenamedKey(k0, was, name) {
      var i :| 0 <= i < |r| && r[i] == k;
      assert keys[i] in keys;
    }
  }

  lemma ReplacedNames(auths: seq<Auth>, i: nat, auth: Auth)
    requires DistinctNames(auths) && i < |auths| && SameIdentifier(auths[i].name, auth.name)
    ensures DistinctNames(auths[i := auth])
    ensures forall k: KeyEntry | Owned(auths, k) && !SameIdentifier(k.authName, auth.name) :: Owned(auths[i := auth], k)
  {
    var after := auths[i := auth];
    forall k: KeyEntry | Owned(auths, k) && !SameIdentifier(k.authName, auth.name) ensures Owned(after, k) {
      var j :| 0 <= j < |auths| && auths[j].name == k.authName && auths[j].kind.ApiKey?;
      assert after[j] == auths[j];
    }
  }

  /** The owner of a key whose name is that of a scheme is that scheme. */
  lemma OwnerIs(auths: seq<Auth>, i: nat, k: KeyEntry)
    requires DistinctNames(auths) && i < |auths| && SameIdentifier(auths[i].name, k.authName) && Owned(auths, k)
    ensures auths[i].kind.ApiKey? && auths[i].name == k.authName
  {
    var j :| 0 <= j < |auths| && auths[j].name == k.authName && auths[j].kind.ApiKey?;
    assert SameIdentifier(auths[i].name, auths[j].name) && SameIdentifier(auths[j].name, auths[i].name);
  }

  /** What a replaced scheme's keys become: gone with their kind, or carried over to the new spelling. */
  lemma KeysAfterReplace(auths: seq<Auth>, keys: seq<KeyEntry>, i: nat, auth: Auth, k: KeyEntry)
    requires Consistent(State(auths, keys)) && i < |auths| && SameIdentifier(auths[i].name, auth.name)
    requires k in KeysAfter(keys, auths[i], auth)
    ensures Owned(auths[i := auth], k)
    ensures exists k0 | k0 in keys :: SameKey(k0, k) && k0.subject == k.subject
    ensures SameIdentifier(k.authName, auth.name) ==> auths[i].kind.ApiKey? && auth.kind.ApiKey?
  {
    ReplacedNames(auths, i, auth);
    var was := auths[i];
    if was.kind.ApiKey? && !auth.kind.ApiKey? {
      WithoutKeeps(keys, was.name);
    } else {
      var k0 := k;
      if was.name != auth.name {
        RenamedKeeps(keys, was.name, auth.name);
        k0 :| k0 in keys && k == RenamedKey(k0, was.name, auth.name);
      }
      assert k0 in keys;
      if SameIdentifier(k0.authName, was.name) {
        OwnerIs(auths, i, k0);
        assert auths[i := auth][i] == auth;
      }
    }
  }

  lemma CreateKeeps(s: State, auth: Auth, replace: bool)
    requires Consistent(s)
    ensures Consistent(Create(s, auth, replace).0)
  {
    match Find(s.auths, auth.name)
    case None =>
      var after := s.auths + [auth];
      forall k | k in s.keys ensures Owned(after, k) {
        var j :| 0 <= j < |s.auths| && s.auths[j].name == k.authName && s.auths[j].kind.ApiKey?;
        assert after[j] == s.auths[j];
      }
    case Some(i) =>
      if replace {
        ReplacedNames(s.auths, i, auth);
        WithoutKeeps(s.keys, s.auths[i].name);
        RenamedKeeps(s.keys, s.auths[i].name, auth.name);
        forall k | k in KeysAfter(s.keys, s.auths[i], auth) ensures Owned(s.auths[i := auth], k) {
          KeysAfterReplace(s.auths, s.keys, i, auth, k);
        }
      }
  }

  lemma DropKeeps(s: State, name: string)
    requires Consistent(s)
    ensures Consistent(Drop(s, name).0)
  {
    match Find(s.auths, name)
    case None =>
    case Some(i) =>
      var after := s.auths[..i] + s.auths[i + 1..];
      assert forall j | 0 <= j < |after| :: after[j] == if j < i then s.auths[j] else s.auths[j + 1];
      WithoutKeeps(s.keys, s.auths[i].name);
      forall k | k in s.keys && !SameIdentifier(k.authName, s.auths[i].name) ensures Owned(after, k) {
        var j :| 0 <= j < |s.auths| && s.auths[j].name == k.authName && s.auths[j].kind.ApiKey?;
        assert after[if j < i then j else j - 1] == s.auths[j];
      }
  }

  lemma AddKeeps(s: State, authName: string, rawKey: string, hash: string, subject: string)
    requires Consistent(s)
    ensures Consistent(Add(s, authName, rawKey, hash, subject).0)
  {
    match Find(s.auths, authName)
    case None =>
    case Some(i) => StoredKeeps(s.keys, KeyEntry(s.auths[i].name, hash, subject));
  }

  lemma ApplyKeepsConsistent(s: State, d: Ddl)
    requires Consistent(s)
    ensures Consistent(Apply(s, d).0)
    ensures Apply(s, d).1.Refused? ==> Apply(s, d).0 == s
  {
    match d
    case CreateAuth(auth, replace) => CreateKeeps(s, auth, replace);
    case DropAuth(name) => DropKeeps(s, name);
    case AddKey(authName, rawKey, hash, subject) => AddKeeps(s, authName, rawKey, hash, subject);
  }

  // ---------------------------------------------------------------- what each statement does, and to whom

  /** DROP AUTH takes the scheme of that name, in any spelling, with exactly its keys; it is refused exactly when there is
      none. */
  lemma DropTakes(s: State, name: string, a: Auth, k: KeyEntry)
    requires Consistent(s)
    ensures var (t, r) := Apply(s, DropAuth(name));
      && (r == Done <==> exists i | 0 <= i < |s.auths| :: Respelled(s.auths[i].name, name))
      && (a in t.auths <==> a in s.auths && !Respelled(a.name, name))
      && (k in t.keys <==> k in s.keys && !Respelled(k.authName, name))
  {
    forall other: string ensures SameIdentifier(other, name) <==> Respelled(other, name) { SameIdentifierIff(other, name); }
    match Find(s.auths, name)
    case None =>
      if k in s.keys { var j :| 0 <= j < |s.auths| && s.auths[j].name == k.authName && s.auths[j].kind.ApiKey?; }
    case Some(i) =>
      WithoutKeeps(s.keys, s.auths[i].name);
      EraseAt(s.auths, i, a);
  }

  lemma ErasedIndex(auths: seq<Auth>, i: nat, j: nat)
    requires i < |auths| && j < |auths| - 1
    ensures (auths[..i] + auths[i + 1..])[j] == auths[if j < i then j else j + 1]
  {
  }

  lemma EraseAt(auths: seq<Auth>, i: nat, a: Auth)
    requires DistinctNames(auths) && i < |auths|
    ensures a in auths[..i] + auths[i + 1..] <==> a in auths && !SameIdentifier(a.name, auths[i].name)
  {
    var after := auths[..i] + auths[i + 1..];
    if a in auths && !SameIdentifier(a.name, auths[i].name) {
      var j :| 0 <= j < |auths| && auths[j] == a;
      ErasedIndex(auths, i, if j < i then j else j - 1);
    }
    if a in after {
      var j :| 0 <= j < |after| && after[j] == a;
      ErasedIndex(auths, i, j);
      DifferentNames(auths, i, if j < i then j else j + 1);
    }
  }

  lemma DifferentNames(auths: seq<Auth>, i: nat, j: nat)
    requires DistinctNames(auths) && i < |auths| && j < |auths| && i != j
    ensures !SameIdentifier(auths[j].name, auths[i].name)
  {
    assert i < j ==> !SameIdentifier(auths[i].name, auths[j].name);
  }

  /** CREATE AUTH is refused exactly for a name that is taken, in any spelling, without OR REPLACE. Otherwise the scheme
      is there as given, every other scheme is as it was, and so is every key of another scheme. */
  lemma CreateGives(s: State, auth: Auth, replace: bool, a: Auth, k: KeyEntry)
    requires Consistent(s)
    ensures var (t, r) := Apply(s, CreateAuth(auth, replace));
      && (r == Refused <==> !replace && exists i | 0 <= i < |s.auths| :: Respelled(s.auths[i].name, auth.name))
      && (r == Done ==> auth in t.auths)
      && (r == Done && !Respelled(a.name, auth.name) ==> (a in t.auths <==> a in s.auths))
      && (r == Done && !Respelled(k.authName, auth.name) ==> (k in t.keys <==> k in s.keys))
  {
    forall other: string ensures SameIdentifier(other, auth.name) <==> Respelled(other, auth.name) {
      SameIdentifierIff(other, auth.name);
    }
    match Find(s.auths, auth.name)
    case None => assert (s.auths + [auth])[|s.auths|] == auth;
    case Some(i) =>
      if replace {
        var after := s.auths[i := auth];
        assert after[i] == auth;
        if a in s.auths && !SameIdentifier(a.name, auth.name) {
          var j :| 0 <= j < |s.auths| && s.auths[j] == a;
          assert after[j] == a;
        }
        WithoutKeeps(s.keys, s.auths[i].name);
        if k in s.keys && !SameIdentifier(k.authName, auth.name) {
          var n :| 0 <= n < |s.keys| && s.keys[n] == k;
          assert Renamed(s.keys, s.auths[i].name, auth.name)[n] == k;
        }
        RenamedKeeps(s.keys, s.auths[i].name, auth.name);
      }
  }

  /** A key is added exactly for a live API_KEY scheme, under the scheme's own spelling, if it and its subject are not
      empty; it replaces the entry with that hash of that scheme, and no other. */
  lemma AddKeyGives(s: State, authName: string, rawKey: string, hash: string, subject: string, k: KeyEntry)
    requires Consistent(s)
    ensures var (t, r) := Apply(s, AddKey(authName, rawKey, hash, subject));
      && (r == Done <==>
            && rawKey != [] && subject != []
            && exists i | 0 <= i < |s.auths| :: Respelled(s.auths[i].name, authName) && s.auths[i].kind.ApiKey?)
      && t.auths == s.auths
      && (r == Done ==> exists i | 0 <= i < |s.auths| ::
            && Respelled(s.auths[i].name, authName) && s.auths[i].kind.ApiKey?
            && (k in t.keys <==>
                  || k == KeyEntry(s.auths[i].name, hash, subject)
                  || (k in s.keys && !(k.authName == s.auths[i].name && k.hash == hash))))
  {
    forall other: string ensures SameIdentifier(other, authName) <==> Respelled(other, authName) {
      SameIdentifierIff(other, authName);
    }
    match Find(s.auths, authName)
    case None =>
    case Some(i) =>
      forall j | 0 <= j < |s.auths| && SameIdentifier(s.auths[j].name, authName) ensures j == i {
        assert SameIdentifier(s.auths[i].name, s.auths[j].name) && SameIdentifier(s.auths[j].name, s.auths[i].name);
      }
      StoredKeeps(s.keys, KeyEntry(s.auths[i].name, hash, subject));
      if k in s.keys && SameIdentifier(k.authName, s.auths[i].name) { OwnerIs(s.auths, i, k); }
      assert Respelled(s.auths[i].name, authName);
  }

  // ---------------------------------------------------------------- runs

  ghost predicate Run(states: seq<State>, ddl: seq<Ddl>) {
    && |states| == |ddl| + 1 && states[0] == State([], [])
    && forall i | 0 <= i < |ddl| :: states[i + 1] == Apply(states[i], ddl[i]).0
  }

  /** After any sequence of statements, every stored key carries the exact name of a live API_KEY scheme. */
  lemma {:induction false} KeysAreOwned(states: seq<State>, ddl: seq<Ddl>, i: nat)
    requires Run(states, ddl) && i < |states|
    ensures Consistent(states[i])
  {
    if i > 0 {
      KeysAreOwned(states, ddl, i - 1);
      ApplyKeepsConsistent(states[i - 1], ddl[i - 1]);
    }
  }

  /** The statement that gave a key what it now carries. */
  predicate Adds(d: Ddl, k: KeyEntry) {
    d.AddKey? && SameIdentifier(d.authName, k.authName) && d.hash == k.hash && d.subject == k.subject
  }

  ghost predicate LiveApiKeyScheme(s: State, name: string) {
    exists i | 0 <= i < |s.auths| :: SameIdentifier(s.auths[i].name, name) && s.auths[i].kind.ApiKey?
  }

  /** A statement that ends a scheme's keys: it drops the scheme or gives it another kind. */
  predicate Ends(d: Ddl, name: string) {
    match d
    case CreateAuth(auth, replace) => replace && SameIdentifier(auth.name, name) && !auth.kind.ApiKey?
    case DropAuth(dropped) => SameIdentifier(dropped, name)
    case AddKey(_, _, _, _) => false
  }

  /** Where one key of the state after a statement comes from. */
  lemma KeyOrigin(s: State, d: Ddl, k: KeyEntry)
    requires Consistent(s) && k in Apply(s, d).0.keys
    ensures (Adds(d, k) && Apply(s, d).1.Done?) || (!Ends(d, k.authName) && exists k0 | k0 in s.keys :: SameKey(k0, k) && k0.subject == k.subject)
  {
    match d
    case CreateAuth(auth, replace) =>
      CreateOrigin(s, auth, replace, k);
    case DropAuth(name) =>
      WithoutKeeps(s.keys, name);
      DropOrigin(s, name, k);
    case AddKey(authName, rawKey, hash, subject) =>
      if Apply(s, d).1.Done? { StoredKeeps(s.keys, KeyEntry(s.auths[Find(s.auths, authName).value].name, hash, subject)); }
  }

  lemma CreateOrigin(s: State, auth: Auth, replace: bool, k: KeyEntry)
    requires Consistent(s) && k in Create(s, auth, replace).0.keys
    ensures !Ends(CreateAuth(auth, replace), k.authName)
    ensures exists k0 | k0 in s.keys :: SameKey(k0, k) && k0.subject == k.subject
  {
    match Find(s.auths, auth.name)
    case None =>
      var j :| 0 <= j < |s.auths| && s.auths[j].name == k.authName && s.auths[j].kind.ApiKey?;
    case Some(i) =>
      if replace { KeysAfterReplace(s.auths, s.keys, i, auth, k); }
  }

  lemma DropOrigin(s: State, name: string, k: KeyEntry)
    requires Consistent(s) && k in Drop(s, name).0.keys
    ensures !Ends(DropAuth(name), k.authName)
    ensures exists k0 | k0 in s.keys :: SameKey(k0, k) && k0.subject == k.subject
  {
    match Find(s.auths, name)
    case None =>
      var j :| 0 <= j < |s.auths| && s.auths[j].name == k.authName && s.auths[j].kind.ApiKey?;
    case Some(i) =>
      WithoutKeeps(s.keys, s.auths[i].name);
  }

  /** From one statement on, a scheme has been live as an API_KEY scheme, and no statement dropped it or changed its
      kind. */
  ghost predicate LivesSince(states: seq<State>, ddl: seq<Ddl>, added: nat, i: nat, name: string)
    requires |states| == |ddl| + 1 && i < |states|
  {
    && (forall j | added < j < i :: !Ends(ddl[j], name))
    && (forall j | added < j <= i :: LiveApiKeyScheme(states[j], name))
  }

  /** A key that is stored was added by some statement, under a scheme that has lived ever since. */
  lemma {:induction false} NoKeyOutlivesItsScheme(states: seq<State>, ddl: seq<Ddl>, i: nat, k: KeyEntry) returns (added: nat)
    requires Run(states, ddl) && i < |states| && k in states[i].keys
    ensures added < i && Adds(ddl[added], k) && Apply(states[added], ddl[added]).1.Done?
    ensures LivesSince(states, ddl, added, i, k.authName)
    decreases i
  {
    KeysAreOwned(states, ddl, i);
    OwnedIsLive(states[i], k);
    KeysAreOwned(states, ddl, i - 1);
    var s, d := states[i - 1], ddl[i - 1];
    KeyOrigin(s, d, k);
    if Adds(d, k) && Apply(s, d).1.Done? {
      added := i - 1;
    } else {
      var k0 :| k0 in s.keys && SameKey(k0, k) && k0.subject == k.subject;
      added := NoKeyOutlivesItsScheme(states, ddl, i - 1, k0);
      LivesOn(states, ddl, added, i, k0.authName, k.authName);
    }
  }

  lemma OwnedIsLive(s: State, k: KeyEntry)
    requires Owned(s.auths, k)
    ensures LiveApiKeyScheme(s, k.authName)
  {
    var j :| 0 <= j < |s.auths| && s.auths[j].name == k.authName && s.auths[j].kind.ApiKey?;
    assert SameIdentifier(s.auths[j].name, k.authName);
  }

  lemma SameScheme(s: State, was: string, name: string)
    requires SameIdentifier(was, name) && LiveApiKeyScheme(s, was)
    ensures LiveApiKeyScheme(s, name)
  {
    var n :| 0 <= n < |s.auths| && SameIdentifier(s.auths[n].name, was) && s.auths[n].kind.ApiKey?;
    assert SameIdentifier(s.auths[n].name, name);
  }

  lemma LivesOn(states: seq<State>, ddl: seq<Ddl>, added: nat, i: nat, was: string, name: string)
    requires |states| == |ddl| + 1 && added < i - 1 < |ddl| && SameIdentifier(was, name)
    requires LivesSince(states, ddl, added, i - 1, was) && !Ends(ddl[i - 1], name) && LiveApiKeyScheme(states[i], name)
    ensures LivesSince(states, ddl, added, i, name)
  {
    forall j | added < j <= i ensures LiveApiKeyScheme(states[j], name) {
      if j < i { SameScheme(states[j], was, name); }
    }
  }

  /** A change of spelling alone keeps every key of the scheme, under the new spelling. */
  lemma RespellingKeepsKeys(s: State, auth: Auth, k: KeyEntry)
    requires Consistent(s) && k in s.keys && SameIdentifier(k.authName, auth.name) && auth.kind.ApiKey?
    ensures Apply(s, CreateAuth(auth, true)).1.Done? && k.(authName := auth.name) in Apply(s, CreateAuth(auth, true)).0.keys
  {
    var j :| 0 <= j < |s.auths| && s.auths[j].name == k.authName && s.auths[j].kind.ApiKey?;
    var i := Find(s.auths, auth.name).value;
    OwnerIs(s.auths, i, k);
    var n :| 0 <= n < |s.keys| && s.keys[n] == k;
    assert Renamed(s.keys, s.auths[i].name, auth.name)[n] == k.(authName := auth.name);
  }

  // ---------------------------------------------------------------- the registry itself

  class Registry {
    var auths: seq<Auth>
    var apiKeys: seq<KeyEntry>

    ghost function Contents(): State
      reads this
    {
      State(auths, apiKeys)
    }

    constructor ()
      ensures Contents() == State([], []) && Consistent(Contents())
    {
      auths, apiKeys := [], [];
    }

    /** The index the source's loops stop at, or the number of schemes. */
    method Search(name: string) returns (i: nat)
      ensures i <= |auths|
      ensures Find(auths, name) == if i == |auths| then None else Some(i)
    {
      i := 0;
      while i < |auths| && !SameIdentifier(auths[i].name, name)
        invariant i <= |auths|
        invariant forall j | 0 <= j < i :: !SameIdentifier(auths[j].name, name)
      {
        i := i + 1;
      }
      FirstFound(auths, name, i);
    }

    method EraseKeys(name: string)
      modifies this`apiKeys
      ensures apiKeys == Without(old(apiKeys), name)
    {
      var kept: seq<KeyEntry> := [];
      assert apiKeys[0..] == apiKeys;
      for i := 0 to |apiKeys|
        invariant apiKeys == old(apiKeys)
        invariant Without(apiKeys, name) == kept + Without(apiKeys[i..], name)
      {
        assert apiKeys[i..][1..] == apiKeys[i + 1..];
        if !SameIdentifier(apiKeys[i].authName, name) {
          Assoc(kept, [apiKeys[i]], Without(apiKeys[i + 1..], name));
          kept := kept + [apiKeys[i]];
        }
      }
      assert apiKeys[|apiKeys|..] == [];
      apiKeys := kept;
    }

    method RenameKeys(was: string, name: string)
      modifies this`apiKeys
      ensures apiKeys == Renamed(old(apiKeys), was, name)
    {
      for i := 0 to |apiKeys|
        invariant |apiKeys| == |old(apiKeys)|
        invariant forall j | 0 <= j < i :: apiKeys[j] == RenamedKey(old(apiKeys)[j], was, name)
        invariant forall j | i <= j < |apiKeys| :: apiKeys[j] == old(apiKeys)[j]
      {
        if SameIdentifier(apiKeys[i].authName, was) {
          apiKeys := apiKeys[i := apiKeys[i].(authName := name)];
        }
      }
    }

    method AddAuth(auth: Auth, replace: bool) returns (reply: Reply)
      requires Consistent(Contents())
      modifies this
      ensures (Contents(), reply) == Apply(old(Contents()), CreateAuth(auth, replace)) && Consistent(Contents())
    {
      CreateKeeps(Contents(), auth, replace);
      var i := Search(auth.name);
      if i == |auths| {
        auths := auths + [auth];
        return Done;
      }
      if !replace { return Refused; }
      var was := auths[i];
      if was.kind.ApiKey? && !auth.kind.ApiKey? {
        EraseKeys(was.name);
      } else if was.name != auth.name {
        RenameKeys(was.name, auth.name);
      }
      auths := auths[i := auth];
      return Done;
    }

    method DropAuth(name: string) returns (found: bool)
      requires Consistent(Contents())
      modifies this
      ensures Contents() == Apply(old(Contents()), Ddl.DropAuth(name)).0 && Consistent(Contents())
      ensures found <==> Apply(old(Contents()), Ddl.DropAuth(name)).1.Done?
    {
      DropKeeps(Contents(), name);
      var i := Search(name);
      found := i < |auths|;
      if found {
        var dropped := auths[i].name;
        auths := auths[..i] + auths[i + 1..];
        EraseKeys(dropped);
      }
    }

    /** `hash` is the digest of `rawKey`. */
    method AddApiKey(authName: string, rawKey: string, hash: string, subject: string) returns (reply: Reply)
      requires Consistent(Contents())
      modifies this
      ensures (Contents(), reply) == Apply(old(Contents()), AddKey(authName, rawKey, hash, subject)) && Consistent(Contents())
    {
      AddKeeps(Contents(), authName, rawKey, hash, subject);
      if rawKey == [] || subject == [] { return Refused; }
      var a := Search(authName);
      if a == |auths| || !auths[a].kind.ApiKey? { return Refused; }
      var entry := KeyEntry(auths[a].name, hash, subject);
      for i := 0 to |apiKeys|
        invariant Contents() == old(Contents())
        invariant forall j | 0 <= j < i :: !SameKey(apiKeys[j], entry)
      {
        if SameKey(apiKeys[i], entry) {
          StoredAt(apiKeys, i, entry);
          apiKeys := apiKeys[i := apiKeys[i].(subject := subject, authName := entry.authName)];
          return Done;
        }
      }
      StoredAt(apiKeys, |apiKeys|, entry);
      apiKeys := apiKeys + [entry];
      return Done;
    }
  }

  lemma {:induction false} FirstFound(auths: seq<Auth>, name: string, i: nat)
    requires i <= |auths| && (forall j | 0 <= j < i :: !SameIdentifier(auths[j].name, name))
    requires i < |auths| ==> SameIdentifier(auths[i].name, name)
    ensures Find(auths, name) == if i == |auths| then None else Some(i)
  {
    if i > 0 { FirstFound(auths[1..], name, i - 1); }
  }

  lemma {:induction false} StoredAt(keys: seq<KeyEntry>, i: nat, entry: KeyEntry)
    requires i <= |keys| && (forall j | 0 <= j < i :: !SameKey(keys[j], entry)) && (i < |keys| ==> SameKey(keys[i], entry))
    ensures Stored(keys, entry) == if i == |keys| then keys + [entry] else keys[i := entry]
  {
    if i > 0 {
      StoredAt(keys[1..], i - 1, entry);
      assert keys == [keys[0]] + keys[1..];
    }
  }
}
