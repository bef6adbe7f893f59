/** SCRAM-SHA-256 as the client speaks it, over abstract cryptography. */
module Scram {
  import opened Wrappers
  import opened Wire
  import opened Numbers

  // ---- what is assumed of the primitives ----

  datatype Crypto = Crypto(
    hash: bytes -> bytes,
    hmac: (bytes, bytes) -> bytes,
    pbkdf2: (bytes, bytes, nat) -> Option<bytes>,
    encode64: bytes -> bytes,
    decode64: bytes -> bytes)

  /** Sizes, and base64 as an encoding without commas that decodes back. */
  ghost predicate Standard(c: Crypto) {
    && (forall b :: |c.hash(b)| == 32)
    && (forall k, b :: |c.hmac(k, b)| == 32)
    && (forall p, s, i :: c.pbkdf2(p, s, i).Some? ==> |c.pbkdf2(p, s, i).value| == 32)
    && (forall b :: c.decode64(c.encode64(b)) == b && COMMA !in c.encode64(b))
    && c.decode64([]) == []
  }

  /** Exclusive or of the `n` low bits. */
  function Xor(a: nat, b: nat, n: nat): nat
    decreases n
  {
    if n == 0 then 0 else 2 * Xor(a / 2, b / 2, n - 1) + (if a % 2 == b % 2 then 0 else 1)
  }

  function Pow2(n: nat): nat {
    if n == 0 then 1 else 2 * Pow2(n - 1)
  }

  lemma {:induction false} XorBound(a: nat, b: nat, n: nat)
    ensures Xor(a, b, n) < Pow2(n)
    decreases n
  {
    if n > 0 {
      XorBound(a / 2, b / 2, n - 1);
    }
  }

  lemma Halves(h: nat, bit: nat)
    requires bit < 2
    ensures (2 * h + bit) / 2 == h && (2 * h + bit) % 2 == bit
  {
  }

  lemma {:induction false} XorTwice(a: nat, b: nat, n: nat)
    requires a < Pow2(n)
    ensures Xor(Xor(a, b, n), b, n) == a
    decreases n
  {
    if n > 0 {
      var h, bit := Xor(a / 2, b / 2, n - 1), if a % 2 == b % 2 then 0 else 1;
      Halves(h, bit);
      assert Xor(a, b, n) == 2 * h + bit;
      XorTwice(a / 2, b / 2, n - 1);
    }
  }

  /** The bit of weight 2^k. */
  function Bit(x: nat, k: nat): nat
    decreases k
  {
    if k == 0 then x % 2 else Bit(x / 2, k - 1)
  }

  lemma {:induction false} XorBit(a: nat, b: nat, n: nat, k: nat)
    requires k < n
    ensures Bit(Xor(a, b, n), k) == if Bit(a, k) == Bit(b, k) then 0 else 1
    decreases n
  {
    var h, bit := Xor(a / 2, b / 2, n - 1), if a % 2 == b % 2 then 0 else 1;
    Halves(h, bit);
    assert Xor(a, b, n) == 2 * h + bit;
    if k > 0 {
      XorBit(a / 2, b / 2, n - 1, k - 1);
    }
  }

  lemma Pow2Of8()
    ensures Pow2(8) == 256
  {
    assert Pow2(4) == 16;
  }

  function XorByte(a: byte, b: byte): byte {
    XorBound(a, b, 8);
    Pow2Of8();
    Xor(a, b, 8)
  }

  function XorBytes(a: bytes, b: bytes): (r: bytes)
    requires |a| == |b|
    ensures |r| == |a|
  {
    seq(|a|, i requires 0 <= i < |a| => XorByte(a[i], b[i]))
  }

  /** Each bit of the mixture says whether the bits it is mixed from differ. */
  lemma XorBytesBits(a: bytes, b: bytes, i: nat, k: nat)
    requires |a| == |b| && i < |a| && k < 8
    ensures Bit(XorBytes(a, b)[i], k) == 1 <==> Bit(a[i], k) != Bit(b[i], k)
  {
    XorBit(a[i], b[i], 8, k);
  }

  /** Whoever knows one of two keys recovers the other from their mixture. */
  lemma XorBytesTwice(a: bytes, b: bytes)
    requires |a| == |b|
    ensures XorBytes(XorBytes(a, b), b) == a
  {
    Pow2Of8();
    forall i | 0 <= i < |a|
      ensures XorBytes(XorBytes(a, b), b)[i] == a[i]
    {
      XorTwice(a[i], b[i], 8);
    }
  }

  // ---- attributes ----

  predicate CommaFree(s: bytes) {
    COMMA !in s
  }

  function FindComma(s: bytes): (k: nat)
    ensures k <= |s|
  {
    if s == [] || s[0] == COMMA then 0 else FindComma(s[1..]) + 1
  }

  function Split(s: bytes): (parts: seq<bytes>)
    ensures parts != []
    decreases |s|
  {
    var k := FindComma(s);
    if k == |s| then [s] else [s[..k]] + Split(s[k + 1..])
  }

  function Join(parts: seq<bytes>): bytes
    requires parts != []
  {
    if |parts| == 1 then parts[0] else parts[0] + [COMMA] + Join(parts[1..])
  }

  lemma {:induction false} FindCommaIs(part: bytes, rest: bytes)
    requires CommaFree(part) && (rest == [] || rest[0] == COMMA)
    ensures FindComma(part + rest) == |part|
  {
    if part == [] {
      assert part + rest == rest;
    } else {
      assert (part + rest)[1..] == part[1..] + rest;
      FindCommaIs(part[1..], rest);
    }
  }

  lemma {:induction false} SplitJoin(parts: seq<bytes>)
    requires parts != [] && forall p :: p in parts ==> CommaFree(p)
    ensures Split(Join(parts)) == parts
  {
    var s := Join(parts);
    if |parts| == 1 {
      assert s == s + [];
      FindCommaIs(s, []);
    } else {
      var rest := Join(parts[1..]);
      assert s == parts[0] + ([COMMA] + rest);
      FindCommaIs(parts[0], [COMMA] + rest);
      assert s[..|parts[0]|] == parts[0] && s[|parts[0]| + 1..] == rest;
      SplitJoin(parts[1..]);
      assert [parts[0]] + parts[1..] == parts;
    }
  }

  // ---- the client ----

  datatype Attributes = Attributes(nonce: bytes, salt64: bytes, iterations: int)

  const NO_ATTRIBUTES := Attributes([], [], -1)

  predicate Named(part: bytes, name: char) {
    |part| > 2 && part[0] == (name as int) % 256 && part[1] == '=' as int
  }

  /** One part of the server's first message; nothing when its count is no number. */
  function Take(a: Attributes, part: bytes): Option<Attributes> {
    if Named(part, 'r') then Some(a.(nonce := part[2..]))
    else if Named(part, 's') then Some(a.(salt64 := part[2..]))
    else if Named(part, 'i') then
      var v := Stoi(part[2..]);
      if v.None? then None else Some(a.(iterations := v.value))
    else Some(a)
  }

  /** `f` over the parts in order, as long as it succeeds. */
  function Fold<A>(f: (A, bytes) -> Option<A>, a: A, parts: seq<bytes>): Option<A>
    decreases |parts|
  {
    if parts == [] then Some(a)
    else
      var a' := f(a, parts[0]);
      if a'.None? then None else Fold(f, a'.value, parts[1..])
  }

  function TakeAll(a: Attributes, parts: seq<bytes>): Option<Attributes> {
    Fold(Take, a, parts)
  }

  const CLIENT_KEY := Text("Client Key")
  const SERVER_KEY := Text("Server Key")

  function StoredKey(c: Crypto, salted: bytes): bytes {
    c.hash(c.hmac(salted, CLIENT_KEY))
  }

  function ServerKey(c: Crypto, salted: bytes): bytes {
    c.hmac(salted, SERVER_KEY)
  }

  function WithoutProof(nonce: bytes): bytes {
    Text("c=biws,r=") + nonce
  }

  function AuthMessage(bare: bytes, serverFirst: bytes, withoutProof: bytes): bytes {
    bare + [COMMA] + serverFirst + [COMMA] + withoutProof
  }

  /** The client's final message and what it remembers for the server's. */
  datatype Final = Final(message: bytes, salted: bytes, authMessage: bytes)

  function Salted(c: Crypto, password: bytes, clientNonce: bytes, a: Attributes): Option<bytes> {
    if a.nonce == [] || a.salt64 == [] || a.iterations <= 0 then None
    else if !(clientNonce <= a.nonce) then None
    else
      var salt := c.decode64(a.salt64);
      if salt == [] then None else c.pbkdf2(password, salt, a.iterations)
  }

  function Proof(c: Crypto, salted: bytes, authMessage: bytes): bytes
    requires |c.hmac(salted, CLIENT_KEY)| == |c.hmac(StoredKey(c, salted), authMessage)|
  {
    XorBytes(c.hmac(salted, CLIENT_KEY), c.hmac(StoredKey(c, salted), authMessage))
  }

  ghost function FinalOf(c: Crypto, password: bytes, clientNonce: bytes, bare: bytes, serverFirst: bytes): Option<Final>
    requires Standard(c)
  {
    var a := TakeAll(NO_ATTRIBUTES, Split(serverFirst));
    if a.None? then None
    else
      var salted := Salted(c, password, clientNonce, a.value);
      if salted.None? then None
      else
        var head := WithoutProof(a.value.nonce);
        var auth := AuthMessage(bare, serverFirst, head);
        Some(Final(head + Text(",p=") + c.encode64(Proof(c, salted.value, auth)), salted.value, auth))
  }

  /** Whether the server's final message proves that it knows the key. */
  predicate Verifies(c: Crypto, salted: bytes, authMessage: bytes, serverFinal: bytes) {
    && |salted| == 32 && authMessage != []
    && |serverFinal| >= 2 && serverFinal[0] == 'v' as int && serverFinal[1] == '=' as int
    && |c.decode64(serverFinal[2..])| == 32
    && c.decode64(serverFinal[2..]) == c.hmac(ServerKey(c, salted), authMessage)
  }

  lemma FoldSplit<A>(f: (A, bytes) -> Option<A>, a: A, s: bytes, part: bytes)
    requires part == s[..FindComma(s)]
    ensures Fold(f, a, Split(s))
         == if f(a, part).None? then None
            else if |part| == |s| then f(a, part)
            else Fold(f, f(a, part).value, Split(s[|part| + 1..]))
  {
    assert Split(s)[0] == part;
    if |part| < |s| {
      assert Split(s)[1..] == Split(s[|part| + 1..]);
    } else {
      assert Split(s)[1..] == [];
    }
  }

  lemma FoldSplitAt<A>(f: (A, bytes) -> Option<A>, a: A, s: bytes, pos: nat, next: nat, part: bytes)
    requires pos <= |s| && next == pos + FindComma(s[pos..]) && part == s[pos..next]
    ensures Fold(f, a, Split(s[pos..]))
         == if f(a, part).None? then None
            else if next == |s| then f(a, part)
            else Fold(f, f(a, part).value, Split(s[next + 1..]))
  {
    Slices(s, pos, 0, next - pos);
    FoldSplit(f, a, s[pos..], part);
    if next < |s| {
      Slices(s, pos, next - pos + 1, next - pos + 1);
    }
  }

  /** The loop over the comma-separated parts of `s`, `f` taking each. */
  method FoldParts<A>(f: (A, bytes) -> Option<A>, a: A, s: bytes) returns (r: Option<A>)
    ensures r == Fold(f, a, Split(s))
  {
    var so := a;
    var pos := 0;
    assert s[0..] == s;
    while true
      invariant pos <= |s| && Fold(f, a, Split(s)) == Fold(f, so, Split(s[pos..]))
      decreases |s| - pos
    {
      var next := pos + FindComma(s[pos..]);
      var part := s[pos..next];
      FoldSplitAt(f, so, s, pos, next, part);
      var taken := f(so, part);
      if taken.None? {
        return None;
      }
      so := taken.value;
      if next == |s| {
        return Some(so);
      }
      pos := next + 1;
    }
  }

  method ParseServerFirst(serverFirst: bytes) returns (a: Option<Attributes>)
    ensures a == TakeAll(NO_ATTRIBUTES, Split(serverFirst))
  {
    a := FoldParts(Take, NO_ATTRIBUTES, serverFirst);
  }

  method MixKeys(key: bytes, signature: bytes) returns (proof: bytes)
    requires |key| == |signature|
    ensures proof == XorBytes(key, signature)
  {
    proof := [];
    for i := 0 to |key|
      invariant proof == XorBytes(key, signature)[..i]
    {
      proof := proof + [XorByte(key[i], signature[i])];
    }
  }

  class ScramAuth {
    const crypto: Crypto
    var user: bytes
    var password: bytes
    var clientNonce: bytes
    var clientFirstMessageBare: bytes
    var authMessage: bytes
    var saltedPasswordCache: bytes

    constructor (crypto: Crypto)
      ensures this.crypto == crypto && saltedPasswordCache == [] && authMessage == []
    {
      this.crypto := crypto;
      user, password, clientNonce, clientFirstMessageBare := [], [], [], [];
      authMessage, saltedPasswordCache := [], [];
    }

    method Init(user: bytes, password: bytes)
      modifies this`user, this`password
      ensures this.user == user && this.password == password
    {
      this.user, this.password := user, password;
    }

    /** `random`: sixteen random bytes, unless the generator fails. */
    method GenerateClientFirstMessage(random: Option<bytes>) returns (message: bytes)
      modifies this`clientNonce, this`clientFirstMessageBare
      ensures random.None? ==> message == [] && clientNonce == old(clientNonce)
                               && clientFirstMessageBare == old(clientFirstMessageBare)
      ensures random.Some? ==>
                && clientNonce == crypto.encode64(random.value)
                && message == clientFirstMessageBare == Text("n=") + user + Text(",r=") + clientNonce
    {
      if random.None? {
        return [];
      }
      clientNonce := crypto.encode64(random.value);
      clientFirstMessageBare := Text("n=") + user + Text(",r=") + clientNonce;
      return clientFirstMessageBare;
    }

    /** The final message, or the empty string with nothing remembered. */
    method GenerateClientFinalMessage(serverFirst: bytes) returns (message: bytes)
      requires Standard(crypto)
      modifies this`authMessage, this`saltedPasswordCache
      ensures match FinalOf(crypto, password, clientNonce, clientFirstMessageBare, serverFirst)
              case None =>
                message == [] && authMessage == old(authMessage) && saltedPasswordCache == old(saltedPasswordCache)
              case Some(f) =>
                message == f.message != [] && authMessage == f.authMessage && saltedPasswordCache == f.salted
    {
      var attributes := ParseServerFirst(serverFirst);
      if attributes.None? {
        return [];
      }
      var a := attributes.value;
      if a.nonce == [] || a.salt64 == [] || a.iterations <= 0 {
        return [];
      }
      if |a.nonce| < |clientNonce| || a.nonce[..|clientNonce|] != clientNonce {
        return [];
      }
      var salt := crypto.decode64(a.salt64);
      if salt == [] {
        return [];
      }
      var derived := crypto.pbkdf2(password, salt, a.iterations);
      if derived.None? {
        return [];
      }
      saltedPasswordCache := derived.value;
      var clientKey := crypto.hmac(derived.value, CLIENT_KEY);
      var storedKey := crypto.hash(clientKey);
      var withoutProof := Text("c=biws,r=") + a.nonce;
      authMessage := clientFirstMessageBare + [COMMA] + serverFirst + [COMMA] + withoutProof;
      var clientSignature := crypto.hmac(storedKey, authMessage);
      var proof := MixKeys(clientKey, clientSignature);
      message := withoutProof + Text(",p=") + crypto.encode64(proof);
    }

    method VerifyServerSignature(serverFinal: bytes) returns (ok: bool)
      requires Standard(crypto)
      ensures ok == Verifies(crypto, saltedPasswordCache, authMessage, serverFinal)
      ensures ok ==> |saltedPasswordCache| == 32 && authMessage != []
    {
      if |saltedPasswordCache| != 32 || authMessage == [] {
        return false;
      }
      if |serverFinal| < 2 || serverFinal[0] != 'v' as int || serverFinal[1] != '=' as int {
        return false;
      }
      var signature := crypto.decode64(serverFinal[2..]);
      var serverKey := crypto.hmac(saltedPasswordCache, SERVER_KEY);
      var expected := crypto.hmac(serverKey, authMessage);
      if |signature| != 32 {
        return false;
      }
      return signature == expected;
    }
  }

  // ---- the server ----

  /** A first message as a server writes it, with whatever extensions. */
  function ServerFirst(c: Crypto, nonce: bytes, salt: bytes, count: nat, extensions: seq<bytes>): bytes {
    Join([Text("r=") + nonce, Text("s=") + c.encode64(salt), Text("i=") + Decimal(count)] + extensions)
  }

  predicate Extensions(parts: seq<bytes>) {
    forall p :: p in parts ==> CommaFree(p) && !Named(p, 'r') && !Named(p, 's') && !Named(p, 'i')
  }

  lemma {:induction false} ExtensionsAreIgnored(a: Attributes, parts: seq<bytes>)
    requires Extensions(parts)
    ensures TakeAll(a, parts) == Some(a)
    decreases |parts|
  {
    if parts != [] {
      assert parts[0] in parts;
      ExtensionsAreIgnored(a, parts[1..]);
    }
  }

  lemma TakeThree(r: bytes, s: bytes, i: bytes, count: int, extensions: seq<bytes>)
    requires r != [] && s != [] && i != [] && Stoi(i) == Some(count) && Extensions(extensions)
    ensures TakeAll(NO_ATTRIBUTES, [Text("r=") + r, Text("s=") + s, Text("i=") + i] + extensions)
         == Some(Attributes(r, s, count))
  {
    var p0, p1, p2 := Text("r=") + r, Text("s=") + s, Text("i=") + i;
    var a1 := NO_ATTRIBUTES.(nonce := r);
    var a2 := a1.(salt64 := s);
    var a3 := a2.(iterations := count);
    assert p0[2..] == r && Take(NO_ATTRIBUTES, p0) == Some(a1);
    assert p1[2..] == s && Take(a1, p1) == Some(a2);
    assert p2[2..] == i && Take(a2, p2) == Some(a3);
    ExtensionsAreIgnored(a3, extensions);
    TakeStep(a2, p2, a3, extensions);
    TakeStep(a1, p1, a2, [p2] + extensions);
    TakeStep(NO_ATTRIBUTES, p0, a1, [p1] + ([p2] + extensions));
    assert [p0] + ([p1] + ([p2] + extensions)) == [p0, p1, p2] + extensions;
  }

  lemma TakeStep(a: Attributes, part: bytes, a': Attributes, rest: seq<bytes>)
    requires Take(a, part) == Some(a')
    ensures TakeAll(a, [part] + rest) == TakeAll(a', rest)
  {
    assert ([part] + rest)[1..] == rest;
  }

  lemma ServerFirstParts(c: Crypto, nonce: bytes, salt: bytes, count: nat, extensions: seq<bytes>)
    requires Standard(c) && CommaFree(nonce) && Extensions(extensions)
    ensures Split(ServerFirst(c, nonce, salt, count, extensions))
         == [Text("r=") + nonce, Text("s=") + c.encode64(salt), Text("i=") + Decimal(count)] + extensions
  {
    DigitsOfDecimal(count);
    var parts := [Text("r=") + nonce, Text("s=") + c.encode64(salt), Text("i=") + Decimal(count)] + extensions;
    forall p | p in parts
      ensures CommaFree(p)
    {
    }
    SplitJoin(parts);
  }

  /** The client recovers nonce, salt and count, whatever extensions follow. */
  lemma ServerFirstIsRead(c: Crypto, nonce: bytes, salt: bytes, count: nat, extensions: seq<bytes>)
    requires Standard(c) && CommaFree(nonce) && nonce != [] && c.encode64(salt) != []
    requires count < TWO_31 && Extensions(extensions)
    ensures TakeAll(NO_ATTRIBUTES, Split(ServerFirst(c, nonce, salt, count, extensions)))
         == Some(Attributes(nonce, c.encode64(salt), count))
  {
    IntegerRoundTrip(count);
    DigitsOfDecimal(count);
    ServerFirstParts(c, nonce, salt, count, extensions);
    TakeThree(nonce, c.encode64(salt), Decimal(count), count, extensions);
  }

  /** What a server that keeps only the stored key and the server key does with
      the client's final message: it wants its own nonce back and no channel
      binding, takes the proof off, recovers a client key from it, and compares
      its hash; then it signs (section 3 of RFC 5802). */
  function ServerCheck(c: Crypto, stored: bytes, serverKey: bytes, bare: bytes, serverFirst: bytes,
                       nonce: bytes, message: bytes): Option<bytes>
  {
    var parts := Split(message);
    if |parts| != 3 || parts[0] != Text("c=biws") || parts[1] != Text("r=") + nonce || !Named(parts[2], 'p') then None
    else
      var auth := bare + Text(",") + serverFirst + Text(",") + Text("c=biws,r=") + nonce;
      var proof, signature := c.decode64(parts[2][2..]), c.hmac(stored, auth);
      if |proof| != |signature| || c.hash(XorBytes(proof, signature)) != stored then None
      else Some(Text("v=") + c.encode64(c.hmac(serverKey, auth)))
  }

  lemma JoinThree(a: bytes, b: bytes, c: bytes)
    ensures Join([a, b]) == a + [COMMA] + b
    ensures Join([a, b, c]) == a + [COMMA] + (b + [COMMA] + c)
  {
    assert [a, b, c][1..] == [b, c] && [b, c][1..] == [c] && [a, b][1..] == [b];
    assert Join([b, c]) == b + [COMMA] + Join([c]);
  }

  lemma HeadIs(nonce: bytes)
    ensures WithoutProof(nonce) == Text("c=biws") + [COMMA] + (Text("r=") + nonce)
    ensures Text(",p=") == [COMMA] + Text("p=")
    ensures CommaFree(Text("c=biws")) && CommaFree(Text("r=")) && CommaFree(Text("p="))
  {
    assert Text("c=biws,r=") == Text("c=biws") + [COMMA] + Text("r=");
  }

  lemma RegroupParts(b: bytes, r: bytes, p: bytes, proof: bytes)
    ensures b + [COMMA] + r + ([COMMA] + p) + proof == b + [COMMA] + (r + [COMMA] + (p + proof))
  {
  }

  lemma FinalParts(nonce: bytes, proof: bytes)
    requires CommaFree(nonce) && CommaFree(proof)
    ensures Split(WithoutProof(nonce) + Text(",p=") + proof)
         == [Text("c=biws"), Text("r=") + nonce, Text("p=") + proof]
  {
    HeadIs(nonce);
    SplitThree(Text("c=biws"), Text("r=") + nonce, Text("p=") + proof);
    RegroupParts(Text("c=biws"), Text("r=") + nonce, Text("p="), proof);
  }

  lemma SplitThree(b: bytes, r: bytes, p: bytes)
    requires CommaFree(b) && CommaFree(r) && CommaFree(p)
    ensures Split(b + [COMMA] + (r + [COMMA] + p)) == [b, r, p]
  {
    JoinThree(b, r, p);
    SplitJoin([b, r, p]);
  }

  /** Client and server agree: given the same password, a nonce that extends the
      client's, any salt and any positive count, the client answers, the server,
      which keeps the two keys of section 3 of RFC 5802, accepts the proof, and
      the client then accepts the server's signature. */
  lemma ScramAgreement(c: Crypto, password: bytes, clientNonce: bytes, bare: bytes,
                       nonce: bytes, salt: bytes, count: nat, extensions: seq<bytes>)
    requires Standard(c) && CommaFree(nonce) && nonce != [] && clientNonce <= nonce
    requires salt != [] && 1 <= count < TWO_31 && Extensions(extensions)
    requires c.pbkdf2(password, salt, count).Some?
    ensures var salted := c.pbkdf2(password, salt, count).value;
            var serverFirst := ServerFirst(c, nonce, salt, count, extensions);
            var final := FinalOf(c, password, clientNonce, bare, serverFirst);
            && final.Some?
            && var stored := c.hash(c.hmac(salted, Text("Client Key")));
               var serverKey := c.hmac(salted, Text("Server Key"));
               var reply := ServerCheck(c, stored, serverKey, bare, serverFirst, nonce, final.value.message);
               reply.Some? && Verifies(c, final.value.salted, final.value.authMessage, reply.value)
  {
    var salted := c.pbkdf2(password, salt, count).value;
    var serverFirst := ServerFirst(c, nonce, salt, count, extensions);
    SaltIsSent(c, salt);
    ServerFirstIsRead(c, nonce, salt, count, extensions);
    FinalParts(nonce, c.encode64(Proof(c, salted, AuthMessage(bare, serverFirst, WithoutProof(nonce)))));
    ProofAccepted(c, salted, bare, serverFirst, nonce);
  }

  lemma SaltIsSent(c: Crypto, salt: bytes)
    requires Standard(c) && salt != []
    ensures c.encode64(salt) != []
  {
    assert c.decode64(c.encode64(salt)) == salt;
  }

  lemma ServerAuth(bare: bytes, serverFirst: bytes, nonce: bytes)
    ensures bare + Text(",") + serverFirst + Text(",") + Text("c=biws,r=") + nonce
         == AuthMessage(bare, serverFirst, WithoutProof(nonce))
  {
    assert Text(",") == [COMMA];
    var head := bare + [COMMA] + serverFirst + [COMMA];
    Assoc(head, Text("c=biws,r="), nonce);
  }

  lemma ProofAccepted(c: Crypto, salted: bytes, bare: bytes, serverFirst: bytes, nonce: bytes)
    requires Standard(c) && |salted| == 32
    requires var auth := AuthMessage(bare, serverFirst, WithoutProof(nonce));
             var proof := c.encode64(Proof(c, salted, auth));
             Split(WithoutProof(nonce) + Text(",p=") + proof)
             == [Text("c=biws"), Text("r=") + nonce, Text("p=") + proof]
    ensures var auth := AuthMessage(bare, serverFirst, WithoutProof(nonce));
            var message := WithoutProof(nonce) + Text(",p=") + c.encode64(Proof(c, salted, auth));
            var reply := ServerCheck(c, StoredKey(c, salted), ServerKey(c, salted), bare, serverFirst, nonce, message);
            reply.Some? && Verifies(c, salted, auth, reply.value)
  {
    var auth := AuthMessage(bare, serverFirst, WithoutProof(nonce));
    var proof := Proof(c, salted, auth);
    var last := Text("p=") + c.encode64(proof);
    ServerAuth(bare, serverFirst, nonce);
    assert c.decode64(c.encode64(proof)) == proof && proof != [];
    assert last[2..] == c.encode64(proof) != [];
    XorBytesTwice(c.hmac(salted, CLIENT_KEY), c.hmac(StoredKey(c, salted), auth));
    var signature := c.hmac(ServerKey(c, salted), auth);
    assert (Text("v=") + c.encode64(signature))[2..] == c.encode64(signature);
  }

  // ---- when the client answers ----

  /** The value of the last part with this name, `before` when there is none. */
  function LastNamed(parts: seq<bytes>, name: char, before: bytes): bytes
    decreases |parts|
  {
    if parts == [] then before
    else
      LastNamed(parts[1..], name, if Named(parts[0], name) then parts[0][2..] else before)
  }

  predicate CountsAreNumbers(parts: seq<bytes>) {
    forall k | 0 <= k < |parts| :: Named(parts[k], 'i') ==> Stoi(parts[k][2..]).Some?
  }

  /** The count is the number in the last part named `i`. */
  predicate CountFrom(parts: seq<bytes>, text: bytes, before: int, count: int) {
    var last := LastNamed(parts, 'i', text);
    if last == [] then count == before else Stoi(last) == Some(count)
  }

  lemma {:induction false} TakeAllIs(a: Attributes, parts: seq<bytes>, text: bytes)
    requires if text == [] then a.iterations == -1 else Stoi(text) == Some(a.iterations)
    ensures TakeAll(a, parts).Some? <==> CountsAreNumbers(parts)
    ensures TakeAll(a, parts).Some? ==>
              && TakeAll(a, parts).value.nonce == LastNamed(parts, 'r', a.nonce)
              && TakeAll(a, parts).value.salt64 == LastNamed(parts, 's', a.salt64)
              && CountFrom(parts, text, -1, TakeAll(a, parts).value.iterations)
    decreases |parts|
  {
    if parts != [] {
      var next := Take(a, parts[0]);
      if next.Some? {
        TakeAllIs(next.value, parts[1..], if Named(parts[0], 'i') then parts[0][2..] else text);
        assert CountsAreNumbers(parts) <==> CountsAreNumbers(parts[1..]) by {
          assert forall k | 0 < k < |parts| :: parts[k] == parts[1..][k - 1];
        }
      }
    }
  }

  /** Exactly when a first message of a server, whatever its bytes, is answered: its
      last nonce extends the client's, its last salt and count can be used, and no
      count in it is anything but a number. */
  lemma AnswersIff(c: Crypto, password: bytes, clientNonce: bytes, bare: bytes, serverFirst: bytes)
    requires Standard(c)
    ensures var parts := Split(serverFirst);
            var nonce, salt := LastNamed(parts, 'r', []), c.decode64(LastNamed(parts, 's', []));
            var count := Stoi(LastNamed(parts, 'i', []));
            FinalOf(c, password, clientNonce, bare, serverFirst).Some?
            <==> CountsAreNumbers(parts) && nonce != [] && clientNonce <= nonce && salt != []
                 && count.Some? && count.value > 0 && c.pbkdf2(password, salt, count.value).Some?
  {
    TakeAllIs(NO_ATTRIBUTES, Split(serverFirst), []);
    assert Stoi([]) == None;
  }

  lemma TakeEmptySalt(r: bytes, i: bytes, count: int, extensions: seq<bytes>)
    requires r != [] && i != [] && Stoi(i) == Some(count) && Extensions(extensions)
    ensures TakeAll(NO_ATTRIBUTES, [Text("r=") + r, Text("s="), Text("i=") + i] + extensions)
         == Some(Attributes(r, [], count))
  {
    var p0, p1, p2 := Text("r=") + r, Text("s="), Text("i=") + i;
    var a1 := NO_ATTRIBUTES.(nonce := r);
    var a2 := a1.(iterations := count);
    assert p0[2..] == r && Take(NO_ATTRIBUTES, p0) == Some(a1);
    assert Take(a1, p1) == Some(a1);
    assert p2[2..] == i && Take(a1, p2) == Some(a2);
    ExtensionsAreIgnored(a2, extensions);
    TakeStep(a1, p2, a2, extensions);
    TakeStep(a1, p1, a1, [p2] + extensions);
    TakeStep(NO_ATTRIBUTES, p0, a1, [p1] + ([p2] + extensions));
    assert [p0] + ([p1] + ([p2] + extensions)) == [p0, p1, p2] + extensions;
  }

  /** Of the messages a server writes, the client answers exactly those with a nonce
      that extends its own, a salt, a positive count and a key derived from them. */
  lemma AnswersOwnNonceIff(c: Crypto, password: bytes, clientNonce: bytes, bare: bytes,
                           nonce: bytes, salt: bytes, count: nat, extensions: seq<bytes>)
    requires Standard(c) && CommaFree(nonce) && nonce != [] && count < TWO_31 && Extensions(extensions)
    ensures FinalOf(c, password, clientNonce, bare, ServerFirst(c, nonce, salt, count, extensions)).Some?
            <==> clientNonce <= nonce && salt != [] && count >= 1 && c.pbkdf2(password, salt, count).Some?
  {
    ServerFirstParts(c, nonce, salt, count, extensions);
    IntegerRoundTrip(count);
    DigitsOfDecimal(count);
    assert c.decode64(c.encode64(salt)) == salt;
    if c.encode64(salt) == [] {
      assert Text("s=") + c.encode64(salt) == Text("s=");
      TakeEmptySalt(nonce, Decimal(count), count, extensions);
    } else {
      TakeThree(nonce, c.encode64(salt), Decimal(count), count, extensions);
    }
  }

  /** Before a final message was sent nothing the server says is accepted. */
  lemma NothingIsVerifiedFirst(c: Crypto, salted: bytes, authMessage: bytes, serverFinal: bytes)
    requires salted == [] || authMessage == []
    ensures !Verifies(c, salted, authMessage, serverFinal)
  {
  }

  /** After it the client accepts, of all byte strings, exactly those that carry the
      server key's signature of the very exchange the client saw. */
  lemma OnlyTheServerVerifies(c: Crypto, password: bytes, clientNonce: bytes, bare: bytes, serverFirst: bytes,
                              serverFinal: bytes)
    requires Standard(c) && FinalOf(c, password, clientNonce, bare, serverFirst).Some?
    ensures var f := FinalOf(c, password, clientNonce, bare, serverFirst).value;
            var signature := c.hmac(c.hmac(f.salted, Text("Server Key")), f.authMessage);
            Verifies(c, f.salted, f.authMessage, serverFinal)
            <==> Text("v=") <= serverFinal && c.decode64(serverFinal[2..]) == signature
  {
    assert |Text("v=")| == 2;
  }
}
