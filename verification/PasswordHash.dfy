/** The self-describing Argon2id hash text: internal/password/hasher.go. */
module PasswordHash {
  import opened Texts
  import opened Base64
  import opened Decimal
  import opened Options

  const VERSION: nat := 19   // argon2.Version
  const MAXIMUM_MEMORY: nat := 64 * 1024
  const MAXIMUM_ITERATIONS: nat := 10
  const MAXIMUM_PARALLELISM: nat := 4
  const MAXIMUM_SALT_LENGTH: nat := 64
  const MAXIMUM_KEY_LENGTH: nat := 64

  datatype Costs = Costs(memory: nat, iterations: nat, parallelism: nat)
  datatype Parameters = Parameters(costs: Costs, saltLength: nat, keyLength: nat)

  predicate ValidParameters(p: Parameters) {
    && 8 * p.costs.parallelism <= p.costs.memory <= MAXIMUM_MEMORY
    && 1 <= p.costs.iterations <= MAXIMUM_ITERATIONS
    && 1 <= p.costs.parallelism <= MAXIMUM_PARALLELISM
    && 1 <= p.saltLength <= MAXIMUM_SALT_LENGTH
    && 1 <= p.keyLength <= MAXIMUM_KEY_LENGTH
  }

  function PrintCosts(c: Costs): string {
    "m=" + Print(c.memory) + ",t=" + Print(c.iterations) + ",p=" + Print(c.parallelism)
  }

  function EncodeHash(costs: Costs, salt: Bytes, key: Bytes): string {
    "$argon2id$v=" + Print(VERSION) + "$" + PrintCosts(costs) + "$" + Encode(Std, salt) + "$" + Encode(Std, key)
  }

  /** The fields are uint32, uint32 and uint8. */
  predicate FitsFields(c: Costs) {
    c.memory < 0x1_0000_0000 && c.iterations < 0x1_0000_0000 && c.parallelism < 256
  }

  /** A number after its two-character prefix. */
  function ScanField(s: string, prefix: string): Parsed
    requires |prefix| == 2
  {
    if prefix <= s then ParseNumber(s[2..]) else NotANumber
  }

  /** fmt.Sscanf with "m=%d,t=%d,p=%d" reads some other texts too (signs, leading zeros), but whatever
      it reads from them is printed differently, and so refused. */
  function ScanCosts(s: string): Option<Costs> {
    var first := Cut(s, ',');
    var second := Cut(first.after, ',');
    if !first.found || !second.found then None
    else
      var memory, iterations, parallelism := ScanField(first.before, "m="), ScanField(second.before, "t="),
        ScanField(second.after, "p=");
      if memory.NotANumber? || iterations.NotANumber? || parallelism.NotANumber? then None
      else
        var costs := Costs(memory.value, iterations.value, parallelism.value);
        if FitsFields(costs) then Some(costs) else None
  }

  datatype Hash = Hash(parameters: Parameters, salt: Bytes, key: Bytes)

  function Uint32(x: nat): nat {
    x % 0x1_0000_0000
  }

  function ParseHash(encoded: string): Option<Hash> {
    var parts := Split(encoded, '$');
    if |parts| != 6 || parts[0] != "" || parts[1] != "argon2id" || parts[2] != "v=" + Print(VERSION) then None
    else
      var costs := ScanCosts(parts[3]);
      if costs.None? || parts[3] != PrintCosts(costs.value) then None
      else
        var salt, key := Decode(Std, parts[4]), Decode(Std, parts[5]);
        if salt.Corrupt? || key.Corrupt? then None
        else
          var parameters := Parameters(costs.value, Uint32(|salt.bytes|), Uint32(|key.bytes|));
          if !ValidParameters(parameters) then None else Some(Hash(parameters, salt.bytes, key.bytes))
  }

  // ----- the six fields -----

  function Fields(costs: Costs, salt: string, key: string): seq<string> {
    ["", "argon2id", "v=" + Print(VERSION), PrintCosts(costs), salt, key]
  }

  predicate NoDollar(s: string) {
    forall i | 0 <= i < |s| :: s[i] != '$'
  }

  lemma CostsHaveNoDollar(c: Costs)
    ensures NoDollar(PrintCosts(c)) && NoDollar("v=" + Print(VERSION))
  {
    hide Print;
  }

  function Text(costs: Costs, salt: string, key: string): string {
    "$argon2id$v=" + Print(VERSION) + "$" + PrintCosts(costs) + "$" + salt + "$" + key
  }

  lemma JoinSix(a: string, b: string, c: string, d: string, e: string, f: string)
    ensures Join([a, b, c, d, e, f], '$') == a + "$" + (b + "$" + (c + "$" + (d + "$" + (e + "$" + f))))
  {
    hide Join;
    var parts := [a, b, c, d, e, f];
    JoinStep(parts, 0);
    JoinStep(parts, 1);
    JoinStep(parts, 2);
    JoinStep(parts, 3);
    JoinStep(parts, 4);
    assert parts[0..] == parts && parts[5..] == [f];
    JoinLast(f);
  }

  lemma JoinLast(f: string)
    ensures Join([f], '$') == f
  {
  }

  lemma Associative(a: string, b: string, c: string)
    ensures (a + b) + c == a + (b + c)
  {
  }

  lemma Reassociated(v: string, c: string, s: string, k: string)
    ensures "" + "$" + ("argon2id" + "$" + (v + "$" + (c + "$" + (s + "$" + k)))) ==
              "$argon2id$" + v + "$" + c + "$" + s + "$" + k
  {
    var head := "$argon2id$" + v + "$" + c + "$" + s;
    var t3 := s + "$" + k;
    var t2 := c + "$" + t3;
    var t1 := v + "$" + t2;
    assert "" + "$" + ("argon2id" + "$" + t1) == "$argon2id$" + t1;
    Associative("$argon2id$", v, "$" + t2);
    Associative(v, "$", t2);
    Associative("$argon2id$" + v, "$", t2);
    Associative("$argon2id$" + v + "$", c, "$" + t3);
    Associative(c, "$", t3);
    Associative("$argon2id$" + v + "$" + c, "$", t3);
    Associative("$argon2id$" + v + "$" + c + "$", s, "$" + k);
    Associative(s, "$", k);
    Associative(head, "$", k);
  }

  lemma JoinedFields(costs: Costs, salt: string, key: string)
    ensures Join(Fields(costs, salt, key), '$') == Text(costs, salt, key)
  {
    hide Print, PrintCosts, Join;
    var version := "v=" + Print(VERSION);
    JoinSix("", "argon2id", version, PrintCosts(costs), salt, key);
    Reassociated(version, PrintCosts(costs), salt, key);
    assert "$argon2id$v=" + Print(VERSION) == "$argon2id$" + version;
  }

  lemma JoinStep(parts: seq<string>, i: nat)
    requires i + 1 < |parts|
    ensures Join(parts[i..], '$') == parts[i] + "$" + Join(parts[i + 1..], '$')
  {
    assert parts[i..][1..] == parts[i + 1..];
  }

  lemma SplitFields(costs: Costs, salt: string, key: string)
    requires NoDollar(salt) && NoDollar(key)
    ensures Split(Text(costs, salt, key), '$') == Fields(costs, salt, key)
  {
    hide Print, PrintCosts, Split, Join;
    CostsHaveNoDollar(costs);
    JoinedFields(costs, salt, key);
    var f := Fields(costs, salt, key);
    forall p | p in f
      ensures '$' !in p
    {
      assert p == f[0] || p == f[1] || p == f[2] || p == f[3] || p == f[4] || p == f[5];
    }
    SplitJoin(f, '$');
  }

  // ----- the costs -----

  lemma DigitsLackComma(n: nat)
    ensures ',' !in Print(n)
  {
    hide Print;
    assert forall i | 0 <= i < |Print(n)| :: Print(n)[i] != ',';
  }

  lemma ScanLabelled(prefix: string, n: nat)
    requires |prefix| == 2 && n < 0x1_0000_0000
    ensures ScanField(prefix + Print(n), prefix) == Number(n)
  {
    hide Print, ParseNumber;
    ParsePrint(n);
    assert (prefix + Print(n))[2..] == Print(n);
  }

  /** Printed costs are read back, each of the three. */
  lemma ScanPrinted(c: Costs)
    requires FitsFields(c)
    ensures ScanCosts(PrintCosts(c)) == Some(c)
  {
    hide Print, Cut, ScanField;
    var m, t, p := "m=" + Print(c.memory), "t=" + Print(c.iterations), "p=" + Print(c.parallelism);
    DigitsLackComma(c.memory);
    DigitsLackComma(c.iterations);
    assert PrintCosts(c) == m + [','] + (t + [','] + p);
    CutJoined(m, ',', t + [','] + p);
    CutJoined(t, ',', p);
    ScanLabelled("m=", c.memory);
    ScanLabelled("t=", c.iterations);
    ScanLabelled("p=", c.parallelism);
  }

  // ----- round trip -----

  /** What parseHash takes: the printed fields of valid parameters, with any two texts that decode to
      a salt and a key of the right lengths. */
  predicate Describes(encoded: string, h: Hash, salt: string, key: string) {
    && encoded == Text(h.parameters.costs, salt, key) && NoDollar(salt) && NoDollar(key)
    && Decode(Std, salt) == Decoded.Bytes(h.salt) && Decode(Std, key) == Decoded.Bytes(h.key)
    && ValidParameters(h.parameters) && h.parameters.saltLength == Uint32(|h.salt|) &&
         h.parameters.keyLength == Uint32(|h.key|)
  }

  lemma ParseHashTakes(encoded: string, h: Hash, salt: string, key: string)
    requires Describes(encoded, h, salt, key)
    ensures ParseHash(encoded) == Some(h)
  {
    hide Print, PrintCosts, Split, Decode, Text, ScanCosts;
    SplitFields(h.parameters.costs, salt, key);
    ScanPrinted(h.parameters.costs);
  }

  lemma ParseHashExactly(encoded: string, h: Hash)
    ensures ParseHash(encoded) == Some(h) <==> exists salt, key :: Describes(encoded, h, salt, key)
  {
    hide Print, PrintCosts, Decode, Text, ScanCosts;
    if ParseHash(encoded) == Some(h) {
      var parts := Split(encoded, '$');
      JoinSplit(encoded, '$');
      assert parts == Fields(h.parameters.costs, parts[4], parts[5]);
      JoinedFields(h.parameters.costs, parts[4], parts[5]);
      assert parts[4] in parts && parts[5] in parts;
      assert Describes(encoded, h, parts[4], parts[5]);
    }
    if salt, key :| Describes(encoded, h, salt, key) {
      ParseHashTakes(encoded, h, salt, key);
    }
  }

  lemma ParseEncodedHash(p: Parameters, salt: Bytes, key: Bytes)
    requires ValidParameters(p) && |salt| == p.saltLength && |key| == p.keyLength
    ensures ParseHash(EncodeHash(p.costs, salt, key)) == Some(Hash(p, salt, key))
  {
    hide Print, PrintCosts, Decode, Encode;
    DecodeEncode(Std, salt);
    DecodeEncode(Std, key);
    assert Describes(EncodeHash(p.costs, salt, key), Hash(p, salt, key), Encode(Std, salt), Encode(Std, key));
    ParseHashTakes(EncodeHash(p.costs, salt, key), Hash(p, salt, key), Encode(Std, salt), Encode(Std, key));
  }

  // ----- hashing and verifying -----

  /** argon2.IDKey: some function of the password, the salt, the costs and the key length. */
  type Derivation = (Bytes, Bytes, Costs, nat) -> Bytes

  function HashPassword(derive: Derivation, p: Parameters, password: Bytes, salt: Bytes): Option<string> {
    if !ValidParameters(p) then None else Some(EncodeHash(p.costs, salt, derive(password, salt, p.costs, p.keyLength)))
  }

  function Verify(derive: Derivation, password: Bytes, encoded: string): Option<bool> {
    var h := ParseHash(encoded);
    if h.None? then None
    else Some(derive(password, h.value.salt, h.value.parameters.costs, h.value.parameters.keyLength) == h.value.key)
  }

  /** A password verifies against the hash of another exactly when Argon2id derives the same key from
      both; so every password verifies against its own hash. */
  lemma VerifyComparesKeys(derive: Derivation, p: Parameters, password: Bytes, other: Bytes, salt: Bytes)
    requires ValidParameters(p) && |salt| == p.saltLength
    requires |derive(password, salt, p.costs, p.keyLength)| == p.keyLength
    ensures HashPassword(derive, p, password, salt).Some?
    ensures Verify(derive, other, HashPassword(derive, p, password, salt).value) ==
              Some(derive(other, salt, p.costs, p.keyLength) == derive(password, salt, p.costs, p.keyLength))
  {
    hide ParseHash, EncodeHash, ValidParameters;
    ParseEncodedHash(p, salt, derive(password, salt, p.costs, p.keyLength));
  }
}
