/** The bearer verifier of internal/auth/tokens.go: static keys fixed at start-up, managed keys replaced as a whole. */
module Verifier {
  import opened Common
  import opened Text
  import opened Encoding
  import opened KeyRecords

  datatype ManagedKey = ManagedKey(
    id: string, digestHex: string, expiresAt: Option<Instant>, revokedAt: Option<Instant>)

  datatype Credential = Credential(digest: Sum, expiresAt: Option<Instant>, revokedAt: Option<Instant>)

  type Fixed = map<string, Sum>
  type Managed = map<string, Credential>

  /** validateID of the verifier: looser than the key store's. */
  predicate AcceptableID(id: string) {
    id != "" && '.' !in id && ':' !in id
  }

  function DecodeDigest(hex: string): (r: Option<Sum>)
    ensures r.Some? ==> HexDecode(hex) == Some(r.value)
  {
    var raw := HexDecode(hex);
    if raw.Some? && |raw.value| == 32 then Some(raw.value) else None
  }

  // ---------------------------------------------------------------- static keys

  datatype SpecError = BadEntry | BadStaticID | BadStaticDigest | DuplicateStaticID | NoKeys

  /** One comma-separated part, added to the keys read so far. */
  function AddStatic(keys: Fixed, part: string): Result<Fixed, SpecError> {
    var entry := TrimSpace(part);
    if entry == "" then Ok(keys)
    else
      match Cut(entry, ':')
      case None => Err(BadEntry)
      case Some(halves) =>
        if halves.0 == "" || halves.1 == "" then Err(BadEntry)
        else if !AcceptableID(halves.0) then Err(BadStaticID)
        else
          match DecodeDigest(halves.1)
          case None => Err(BadStaticDigest)
          case Some(sum) => if halves.0 in keys then Err(DuplicateStaticID) else Ok(keys[halves.0 := sum])
  }

  function AddAll(keys: Fixed, parts: seq<string>): Result<Fixed, SpecError>
    decreases |parts|
  {
    if parts == [] then Ok(keys)
    else
      match AddStatic(keys, parts[0])
      case Err(e) => Err(e)
      case Ok(more) => AddAll(more, parts[1..])
  }

  /** What NewVerifier makes of API_KEYS. */
  function StaticKeys(spec: string): Result<Fixed, SpecError> {
    match AddAll(map[], Split(spec, ','))
    case Err(e) => Err(e)
    case Ok(keys) => if keys == map[] then Err(NoKeys) else Ok(keys)
  }

  /** The ids a key list can carry. */
  predicate Printable(id: string) {
    AcceptableID(id) && ',' !in id && !IsSpace(id[0])
  }

  function PrintKey(key: (string, Sum)): string {
    key.0 + ":" + HexEncode(key.1)
  }

  function PrintKeys(keys: seq<(string, Sum)>): string {
    Join(seq(|keys|, i requires 0 <= i < |keys| => PrintKey(keys[i])), ',')
  }

  predicate DistinctIDs(keys: seq<(string, Sum)>) {
    forall i, j | 0 <= i < j < |keys| :: keys[i].0 != keys[j].0
  }

  ghost predicate Lists(keys: seq<(string, Sum)>, m: Fixed) {
    && (forall i | 0 <= i < |keys| :: keys[i].0 in m && m[keys[i].0] == keys[i].1)
    && (forall id | id in m :: exists i :: 0 <= i < |keys| && keys[i].0 == id)
  }

  lemma PrintedKeyReads(keys: Fixed, key: (string, Sum))
    requires Printable(key.0) && key.0 !in keys
    ensures AddStatic(keys, PrintKey(key)) == Ok(keys[key.0 := key.1])
    ensures ',' !in PrintKey(key)
  {
    var hex := HexEncode(key.1);
    var entry := PrintKey(key);
    forall i: nat | i < |hex| ensures !IsSpace(hex[i]) && hex[i] != ',' && hex[i] != ':' {
      HexAlphabet(key.1, i);
    }
    assert entry[0] == key.0[0];
    assert entry[|entry| - 1] == hex[|hex| - 1];
    TrimSpacePadding("", entry, "");
    assert "" + entry + "" == entry;
    CutAtFirst(key.0, hex, ':');
    HexRoundTrip(key.1);
  }

  function IDs(list: seq<(string, Sum)>): set<string> {
    set i | 0 <= i < |list| :: list[i].0
  }

  lemma IDsSplit(list: seq<(string, Sum)>)
    requires list != []
    ensures IDs(list) == {list[0].0} + IDs(list[1..])
  {
    assert list == [list[0]] + list[1..];
  }

  lemma {:induction false} PrintedKeysAdd(keys: Fixed, list: seq<(string, Sum)>, parts: seq<string>) returns (m: Fixed)
    requires |parts| == |list| && forall i | 0 <= i < |list| :: parts[i] == PrintKey(list[i])
    requires DistinctIDs(list)
    requires forall i | 0 <= i < |list| :: Printable(list[i].0) && list[i].0 !in keys
    ensures AddAll(keys, parts) == Ok(m)
    ensures m.Keys == keys.Keys + IDs(list)
    ensures forall id | id in keys :: m[id] == keys[id]
    ensures forall i | 0 <= i < |list| :: m[list[i].0] == list[i].1
    decreases |list|
  {
    if list == [] {
      m := keys;
    } else {
      var more := keys[list[0].0 := list[0].1];
      assert AddStatic(keys, parts[0]) == Ok(more) by {
        PrintedKeyReads(keys, list[0]);
      }
      m := PrintedKeysAdd(more, list[1..], parts[1..]);
      IDsSplit(list);
    }
  }

  /** NewVerifier inverts a printed key list. */
  lemma PrintedKeysParse(list: seq<(string, Sum)>)
    requires list != [] && DistinctIDs(list) && forall i | 0 <= i < |list| :: Printable(list[i].0)
    ensures StaticKeys(PrintKeys(list)).Ok? && Lists(list, StaticKeys(PrintKeys(list)).value)
  {
    var parts := seq(|list|, i requires 0 <= i < |list| => PrintKey(list[i]));
    forall i | 0 <= i < |parts| ensures ',' !in parts[i] {
      PrintedKeyReads(map[], list[i]);
    }
    SplitInvertsJoin(parts, ',');
    var m := PrintedKeysAdd(map[], list, parts);
    assert list[0].0 in m;
  }

  lemma {:induction false} AddedAreReadable(keys: Fixed, parts: seq<string>)
    requires AddAll(keys, parts).Ok?
    requires forall id | id in keys :: Printable(id)
    requires forall i | 0 <= i < |parts| :: ',' !in parts[i]
    ensures forall id | id in AddAll(keys, parts).value :: Printable(id)
    decreases |parts|
  {
    if parts != [] {
      var more := AddStatic(keys, parts[0]).value;
      var entry := TrimSpace(parts[0]);
      TrimKeepsOut(parts[0], ',');
      if entry != "" {
        var id := Cut(entry, ':').value.0;
        assert entry[..|id|] == id;
      }
      AddedAreReadable(more, parts[1..]);
    }
  }

  lemma {:induction false} TrimLeftKeepsOut(s: string, c: char)
    requires c !in s
    ensures c !in TrimLeft(s)
  {
    if s != "" && IsSpace(s[0]) {
      TrimLeftKeepsOut(s[1..], c);
    }
  }

  lemma TrimKeepsOut(s: string, c: char)
    requires c !in s
    ensures c !in TrimSpace(s)
  {
    TrimLeftKeepsOut(s, c);
  }

  /** Conversely every list NewVerifier accepts holds printable ids only, so it can be printed and read back. */
  lemma ParsedKeysArePrintable(spec: string)
    requires StaticKeys(spec).Ok?
    ensures StaticKeys(spec).value != map[]
    ensures forall id | id in StaticKeys(spec).value :: Printable(id)
  {
    AddedAreReadable(map[], Split(spec, ','));
  }

  /** One entry of the list; a blank one adds nothing. */
  method AddEntry(keys: Fixed, part: string) returns (r: Result<Fixed, SpecError>)
    ensures r == AddStatic(keys, part)
  {
    var entry := TrimSpace(part);
    if entry == "" {
      return Ok(keys);
    }
    var halves := Cut(entry, ':');
    if halves.None? || halves.value.0 == "" || halves.value.1 == "" {
      return Err(BadEntry);
    }
    if !AcceptableID(halves.value.0) {
      return Err(BadStaticID);
    }
    var expected := DecodeDigest(halves.value.1);
    if expected.None? {
      return Err(BadStaticDigest);
    }
    if halves.value.0 in keys {
      return Err(DuplicateStaticID);
    }
    return Ok(keys[halves.value.0 := expected.value]);
  }

  method ParseStaticKeys(spec: string) returns (r: Result<Fixed, SpecError>)
    ensures r == StaticKeys(spec)
  {
    var keys: Fixed := map[];
    var parts := Split(spec, ',');
    for i := 0 to |parts|
      invariant AddAll(keys, parts[i..]) == AddAll(map[], parts)
    {
      var more := AddEntry(keys, parts[i]);
      assert parts[i..][0] == parts[i] && parts[i..][1..] == parts[i + 1..];
      if more.Err? {
        return Err(more.error);
      }
      keys := more.value;
    }
    if keys == map[] {
      return Err(NoKeys);
    }
    return Ok(keys);
  }

  // ---------------------------------------------------------------- managed keys

  /** The digest bytes of a key; the default is never installed, undecodable keys being refused. */
  function DigestBytes(hex: string): Sum {
    if DecodeDigest(hex).Some? then DecodeDigest(hex).value else seq(32, _ => 0)
  }

  function CredentialOf(k: ManagedKey): Credential {
    Credential(DigestBytes(k.digestHex), k.expiresAt, k.revokedAt)
  }

  predicate KeyAcceptable(fixed: Fixed, k: ManagedKey) {
    AcceptableID(k.id) && k.id !in fixed && DecodeDigest(k.digestHex).Some?
  }

  /** The key lists ReplaceManaged installs. */
  predicate Acceptable(fixed: Fixed, keys: seq<ManagedKey>) {
    && (forall i | 0 <= i < |keys| :: KeyAcceptable(fixed, keys[i]))
    && (forall i, j | 0 <= i < j < |keys| :: keys[i].id != keys[j].id)
  }

  ghost predicate Listed(keys: seq<ManagedKey>, id: string) {
    exists i :: 0 <= i < |keys| && keys[i].id == id
  }

  /** The managed map holds exactly the listed keys. */
  ghost predicate Projects(keys: seq<ManagedKey>, m: Managed) {
    && (forall i | 0 <= i < |keys| ::
          keys[i].id in m && m[keys[i].id] == CredentialOf(keys[i]))
    && (forall id | id in m :: Listed(keys, id))
  }

  lemma ProjectionUnique(keys: seq<ManagedKey>, a: Managed, b: Managed)
    requires Projects(keys, a) && Projects(keys, b)
    ensures a == b
  {
    forall id | id in a ensures id in b && a[id] == b[id] {
      var i :| 0 <= i < |keys| && keys[i].id == id;
    }
    forall id | id in b ensures id in a {
      var i :| 0 <= i < |keys| && keys[i].id == id;
    }
    assert a.Keys == b.Keys;
  }

  /** Two listings of the same keys in different orders install the same map. */
  lemma OrderDoesNotMatter(keys: seq<ManagedKey>, others: seq<ManagedKey>, a: Managed, b: Managed)
    requires multiset(keys) == multiset(others) && Projects(keys, a) && Projects(others, b)
    ensures a == b
  {
    assert forall k :: k in keys <==> k in multiset(keys);
    assert forall k :: k in others <==> k in multiset(others);
    assert Projects(keys, b) by {
      forall i | 0 <= i < |keys| ensures keys[i].id in b && b[keys[i].id] == CredentialOf(keys[i]) {
        assert keys[i] in others;
      }
      forall id | id in b ensures Listed(keys, id) {
        var j :| 0 <= j < |others| && others[j].id == id;
        assert others[j] in keys;
      }
    }
    ProjectionUnique(keys, a, b);
  }

  lemma AcceptablePrefix(fixed: Fixed, keys: seq<ManagedKey>, n: nat)
    requires n <= |keys| && Acceptable(fixed, keys)
    ensures Acceptable(fixed, keys[..n])
  {
  }

  /** One key of the list, examined after the keys before it were installed into `next`. */
  lemma InstallStep(fixed: Fixed, keys: seq<ManagedKey>, i: nat, next: Managed)
    requires i < |keys| && Acceptable(fixed, keys[..i]) && Projects(keys[..i], next)
    ensures Acceptable(fixed, keys[..i + 1]) <==> KeyAcceptable(fixed, keys[i]) && keys[i].id !in next
    ensures Acceptable(fixed, keys) ==> Acceptable(fixed, keys[..i + 1])
    ensures Acceptable(fixed, keys[..i + 1]) ==> Projects(keys[..i + 1], next[keys[i].id := CredentialOf(keys[i])])
  {
    assert keys[..i + 1] == keys[..i] + [keys[i]];
    OneMoreKey(fixed, keys[..i], keys[i], keys[..i + 1], next);
    if Acceptable(fixed, keys) {
      AcceptablePrefix(fixed, keys, i + 1);
    }
  }

  lemma OneMoreKey(fixed: Fixed, prefix: seq<ManagedKey>, k: ManagedKey, longer: seq<ManagedKey>, next: Managed)
    requires longer == prefix + [k] && Acceptable(fixed, prefix) && Projects(prefix, next)
    ensures Acceptable(fixed, longer) <==> KeyAcceptable(fixed, k) && k.id !in next
    ensures Acceptable(fixed, longer) ==> Projects(longer, next[k.id := CredentialOf(k)])
  {
    OneMoreAcceptable(fixed, prefix, k, next);
    if k.id !in next {
      OneMoreProjects(prefix, k, next);
    }
  }

  lemma OneMoreAcceptable(fixed: Fixed, prefix: seq<ManagedKey>, k: ManagedKey, next: Managed)
    requires Acceptable(fixed, prefix) && Projects(prefix, next)
    ensures Acceptable(fixed, prefix + [k]) <==> KeyAcceptable(fixed, k) && k.id !in next
  {
    var longer := prefix + [k];
    assert longer[|prefix|] == k;
    if k.id in next {
      var j :| 0 <= j < |prefix| && prefix[j].id == k.id;
      assert longer[j].id == longer[|prefix|].id;
    } else if KeyAcceptable(fixed, k) {
      forall j | 0 <= j < |prefix| ensures prefix[j].id != k.id {
      }
    }
  }

  lemma OneMoreProjects(prefix: seq<ManagedKey>, k: ManagedKey, next: Managed)
    requires Projects(prefix, next) && k.id !in next
    ensures Projects(prefix + [k], next[k.id := CredentialOf(k)])
  {
    var longer, m := prefix + [k], next[k.id := CredentialOf(k)];
    forall j | 0 <= j < |longer|
      ensures longer[j].id in m && m[longer[j].id] == CredentialOf(longer[j])
    {
      if j < |prefix| {
        assert longer[j] == prefix[j];
      }
    }
    forall id | id in m ensures Listed(longer, id) {
      if id == k.id {
        assert longer[|prefix|].id == id;
      } else {
        var j :| 0 <= j < |prefix| && prefix[j].id == id;
        assert longer[j].id == id;
      }
    }
  }

  lemma StaticIDsAreReserved(fixed: Fixed, id: string)
    requires AcceptableID(id)
    ensures id in fixed <==> forall keys: seq<ManagedKey> | Listed(keys, id) :: !Acceptable(fixed, keys)
  {
    if id !in fixed {
      var zeros: Sum := seq(32, _ => 0);
      HexRoundTrip(zeros);
      var keys := [ManagedKey(id, HexEncode(zeros), None, None)];
      assert keys[0].id == id;
      assert Listed(keys, id) && Acceptable(fixed, keys);
    }
  }

  datatype ReplaceError = UnacceptableID | Collision | Duplicate | UndecodableDigest

  datatype Status = Active | RevokedKey | ExpiredKey

  /** The status the admin view and the counters report. */
  function StatusOf(revokedAt: Option<Instant>, expiresAt: Option<Instant>, now: Instant): Status {
    if revokedAt.Some? then RevokedKey
    else if expiresAt.Some? && !(now < expiresAt.value) then ExpiredKey
    else Active
  }

  function CredentialStatus(c: Credential, now: Instant): Status {
    StatusOf(c.revokedAt, c.expiresAt, now)
  }

  const PREFIX := "Bearer "

  /** VerifyAuthorization as a function of the two maps. */
  function Authorize(hash: Hash, fixed: Fixed, managed: Managed, header: string, now: Instant): Option<string> {
    if !(PREFIX <= header) then None
    else
      match Cut(TrimSpace(header[|PREFIX|..]), '.')
      case None => None
      case Some((id, secret)) =>
        if id == "" || secret == "" then None
        else if id in managed then
          if CredentialStatus(managed[id], now) == Active && managed[id].digest == hash(secret) then Some(id) else None
        else if id in fixed && fixed[id] == hash(secret) then Some(id)
        else None
  }

  /** The header spells the token `id.secret`, possibly padded with whitespace. */
  predicate Presents(header: string, id: string, secret: string) {
    PREFIX <= header && '.' !in id && id != "" && secret != "" && TrimSpace(header[|PREFIX|..]) == Token(id, secret)
  }

  /** Not revoked, and the expiry, if there is one, still ahead. */
  predicate InForce(revokedAt: Option<Instant>, expiresAt: Option<Instant>, now: Instant) {
    revokedAt.None? && (expiresAt.Some? ==> now < expiresAt.value)
  }

  /** A managed entry shadows a static one of the same id. */
  predicate Usable(hash: Hash, fixed: Fixed, managed: Managed, id: string, secret: string, now: Instant) {
    if id in managed then
      InForce(managed[id].revokedAt, managed[id].expiresAt, now) && managed[id].digest == hash(secret)
    else id in fixed && fixed[id] == hash(secret)
  }

  /** Exactly the headers presenting a usable token are accepted, as exactly the id presented. */
  lemma AcceptedIff(hash: Hash, fixed: Fixed, managed: Managed, header: string, now: Instant, id: string)
    ensures Authorize(hash, fixed, managed, header, now) == Some(id) <==>
            exists secret :: Presents(header, id, secret) && Usable(hash, fixed, managed, id, secret, now)
  {
    if Authorize(hash, fixed, managed, header, now) == Some(id) {
      var secret := Cut(TrimSpace(header[|PREFIX|..]), '.').value.1;
      assert Presents(header, id, secret);
    }
    if secret :| Presents(header, id, secret) && Usable(hash, fixed, managed, id, secret, now) {
      assert Token(id, secret) == id + ['.'] + secret;
      CutAtFirst(id, secret, '.');
    }
  }

  /** A header that presents an id is accepted as that id or not at all. */
  lemma PresentedIdOrNone(
      hash: Hash, fixed: Fixed, managed: Managed, id: string, secret: string, header: string, now: Instant)
    requires Presents(header, id, secret)
    ensures var answer := Authorize(hash, fixed, managed, header, now); answer == None || answer == Some(id)
  {
    assert Token(id, secret) == id + ['.'] + secret;
    CutAtFirst(id, secret, '.');
  }

  /** ManagedKey and credential of a stored record, as both writers of the verifier build them. */
  function KeyFor(r: Record): ManagedKey {
    ManagedKey(r.id, r.secretSHA256, r.expiresAt, r.revokedAt)
  }

  lemma RecordKeyDecodes(r: Record)
    requires DigestShape(r.secretSHA256) && ValidID(r.id)
    ensures DecodeDigest(r.secretSHA256).Some? && AcceptableID(r.id)
  {
    forall i | 0 <= i < |r.id| ensures r.id[i] != '.' && r.id[i] != ':' {
      UrlLetterPlain(r.id[i]);
    }
  }

  function CredentialFor(r: Record): Credential {
    CredentialOf(KeyFor(r))
  }

  lemma TokenIsPresented(left: string, id: string, random: Random, right: string)
    requires ValidID(id) && AllSpace(left) && AllSpace(right)
    ensures Presents("Bearer " + left + Token(id, SecretOf(random)) + right, id, SecretOf(random))
  {
    var secret := SecretOf(random);
    var token := Token(id, secret);
    UrlEncodeAlphabet(random);
    UrlLetterPlain(id[0]);
    UrlLetterPlain(secret[|secret| - 1]);
    forall i | 0 <= i < |id| ensures id[i] != '.' {
      UrlLetterPlain(id[i]);
    }
    TrimSpacePadding(left, token, right);
    var header := PREFIX + left + token + right;
    assert header[|PREFIX|..] == left + token + right;
  }

  /**
   * Token round trip: for every valid id and every minted secret, the printed token, sent as a bearer header
   * with any whitespace around it, authenticates as exactly that id if and only if the record the verifier
   * holds is active and matches the secret.
   */
  lemma TokenRoundTrip(
      hash: Hash, fixed: Fixed, managed: Managed, r: Record, random: Random, now: Instant, left: string, right: string)
    requires ValidID(r.id) && AllSpace(left) && AllSpace(right)
    requires r.id in managed && managed[r.id] == CredentialFor(r)
    ensures var header := PREFIX + left + Token(r.id, SecretOf(random)) + right;
      var answer := Authorize(hash, fixed, managed, header, now);
      && (answer == Some(r.id)
          <==> (r.revokedAt.None? && (r.expiresAt.Some? ==> now < r.expiresAt.value)
                && DigestBytes(r.secretSHA256) == hash(SecretOf(random))))
      && (answer == Some(r.id) || answer == None)
  {
    var secret := SecretOf(random);
    TokenIsPresented(left, r.id, random, right);
    assert Token(r.id, secret) == r.id + ['.'] + secret;
    CutAtFirst(r.id, secret, '.');
  }

  // ---------------------------------------------------------------- the object

  datatype ManagedCounts = ManagedCounts(total: nat, active: nat, revoked: nat, expired: nat)

  function WithStatus(m: Managed, now: Instant, status: Status): set<string> {
    set id | id in m && CredentialStatus(m[id], now) == status
  }

  class BearerVerifier {
    const hash: Hash
    const fixed: Fixed
    var managed: Managed

    constructor (hash: Hash, fixed: Fixed)
      ensures this.hash == hash && this.fixed == fixed && managed == map[]
    {
      this.hash := hash;
      this.fixed := fixed;
      managed := map[];
    }

    /** Builds the next map key by key and swaps it in only when every key was acceptable. */
    method ReplaceManaged(keys: seq<ManagedKey>) returns (r: Result<(), ReplaceError>)
      modifies this
      ensures r.Ok? <==> Acceptable(fixed, keys)
      ensures r.Ok? ==> Projects(keys, managed)
      ensures r.Err? ==> managed == old(managed)
    {
      var next: Managed := map[];
      for i := 0 to |keys|
        invariant managed == old(managed)
        invariant Acceptable(fixed, keys[..i]) && Projects(keys[..i], next)
      {
        var key := keys[i];
        InstallStep(fixed, keys, i, next);
        if !AcceptableID(key.id) {
          return Err(UnacceptableID);
        }
        if key.id in fixed {
          return Err(Collision);
        }
        if key.id in next {
          return Err(Duplicate);
        }
        var digest := DecodeDigest(key.digestHex);
        if digest.None? {
          return Err(UndecodableDigest);
        }
        next := next[key.id := Credential(digest.value, key.expiresAt, key.revokedAt)];
      }
      assert keys[..|keys|] == keys;
      managed := next;
      return Ok(());
    }

    /** Says of an acceptable id that no managed key may have it: every list with such a key is refused. */
    method HasStaticID(id: string) returns (has: bool)
      ensures AcceptableID(id) ==>
        (has <==> forall keys: seq<ManagedKey> | Listed(keys, id) :: !Acceptable(fixed, keys))
    {
      has := id in fixed;
      if AcceptableID(id) {
        StaticIDsAreReserved(fixed, id);
      }
    }

    /** Reads both maps once and decides; unknown ids, inactive keys and wrong secrets are refused alike. */
    method VerifyAuthorization(header: string, now: Instant) returns (r: Option<string>)
      ensures r == Authorize(hash, fixed, managed, header, now)
    {
      if !(PREFIX <= header) {
        return None;
      }
      var token := TrimSpace(header[|PREFIX|..]);
      var halves := Cut(token, '.');
      if halves.None? || halves.value.0 == "" || halves.value.1 == "" {
        return None;
      }
      var id, secret := halves.value.0, halves.value.1;
      if id !in fixed && id !in managed {
        return None;
      }
      var expected: Sum;
      if id in managed {
        var key := managed[id];
        if key.revokedAt.Some? || (key.expiresAt.Some? && !(now < key.expiresAt.value)) {
          return None;
        }
        expected := key.digest;
      } else {
        expected := fixed[id];
      }
      if expected != hash(secret) {
        return None;
      }
      return Some(id);
    }

    /** Counts the keys by status, visiting the map in any order. */
    method Counts(now: Instant) returns (c: ManagedCounts)
      ensures c.total == |managed| == c.active + c.revoked + c.expired
      ensures c.active == |WithStatus(managed, now, Active)|
      ensures c.revoked == |WithStatus(managed, now, RevokedKey)|
      ensures c.expired == |WithStatus(managed, now, ExpiredKey)|
    {
      c := ManagedCounts(|managed|, 0, 0, 0);
      var rest := managed.Keys;
      ghost var seen: Managed := map[];
      while rest != {}
        invariant rest <= managed.Keys && seen == map id | id in managed.Keys - rest :: managed[id]
        invariant c.total == |managed| && c.active + c.revoked + c.expired + |rest| == |managed.Keys|
        invariant c.active == |WithStatus(seen, now, Active)|
        invariant c.revoked == |WithStatus(seen, now, RevokedKey)|
        invariant c.expired == |WithStatus(seen, now, ExpiredKey)|
        decreases rest
      {
        var id :| id in rest;
        var key := managed[id];
        OneMore(seen, id, key, now);
        seen := seen[id := key];
        if key.revokedAt.Some? {
          c := c.(revoked := c.revoked + 1);
        } else if key.expiresAt.Some? && !(now < key.expiresAt.value) {
          c := c.(expired := c.expired + 1);
        } else {
          c := c.(active := c.active + 1);
        }
        rest := rest - {id};
      }
      assert seen == managed;
      assert |managed| == |managed.Keys|;
    }
  }

  lemma OneMore(m: Managed, id: string, c: Credential, now: Instant)
    requires id !in m
    ensures forall s :: |WithStatus(m[id := c], now, s)|
                     == |WithStatus(m, now, s)| + if s == CredentialStatus(c, now) then 1 else 0
  {
    forall s
      ensures |WithStatus(m[id := c], now, s)|
           == |WithStatus(m, now, s)| + if s == CredentialStatus(c, now) then 1 else 0
    {
      OneMoreOf(m, id, c, now, s);
    }
  }

  lemma OneMoreOf(m: Managed, id: string, c: Credential, now: Instant, s: Status)
    requires id !in m
    ensures |WithStatus(m[id := c], now, s)|
         == |WithStatus(m, now, s)| + if s == CredentialStatus(c, now) then 1 else 0
  {
    var before, after := WithStatus(m, now, s), WithStatus(m[id := c], now, s);
    if s == CredentialStatus(c, now) {
      assert after == before + {id};
    } else {
      assert after == before;
    }
  }
}
