/** src/chat/protocol.c: the login hashes and the two authorization checks. */
module Protocol {
  import opened Bytes
  import opened Strings
  import opened Users
  import Sha1Spec
  import Sha1

  // ---- GG32 ----

  /** One password byte b after the byte prev: only these two bytes and y matter. */
  function HashStep(y: word, prev: byte, b: byte): word
  {
    var pair := ((prev as word) << 24) | (b as word);
    var low := b as word;
    RotateBySelf(Mix(y, pair, low << 8, low << 16, low << 24))
  }

  function Mix(y: word, w0: word, w1: word, w2: word, w3: word): word
  {
    Xor(Minus(Xor(Plus(Xor(y, w0), w0), w1), w2), w3)
  }

  /** The low five bits say how far; no rotation at all when they are 0. */
  function RotateBySelf(y: word): word
  {
    var z := y & 0x1F;
    (y << z) | (y >> (32 - z))
  }

  lemma NoRotation(y: word)
    requires y & 0x1F == 0
    ensures RotateBySelf(y) == y
  {}

  /** Each bit goes z places up, around the end of the word, where z is the low five bits. */
  lemma RotatesBits(y: word, z: word, i: word)
    requires z == y & 0x1F && z < 32 && i < 32
    ensures BitMoves(y, RotateBySelf(y), z, i)
  {
    RotatesByLowBits(y, z);
    RotlBit(y, z, i);
    hide RotateBySelf, Rotl, BitMoves;
  }

  lemma RotatesByLowBits(y: word, z: word)
    requires z == y & 0x1F && z < 32
    ensures RotateBySelf(y) == Rotl(y, z)
  {}

  /** The word arithmetic of a byte, backwards. */
  function Unmix(y: word, w0: word, w1: word, w2: word, w3: word): word
  {
    Xor(Minus(Xor(Plus(Xor(y, w3), w2), w1), w0), w0)
  }

  lemma MixInverse(y: word, w0: word, w1: word, w2: word, w3: word)
    ensures Unmix(Mix(y, w0, w1, w2, w3), w0, w1, w2, w3) == y
    ensures Mix(Unmix(y, w0, w1, w2, w3), w0, w1, w2, w3) == y
  {
    hide Xor, Plus, Minus;
    var a := Xor(y, w0);
    var b := Xor(Plus(a, w0), w1);
    XorInverse(y, w0);
    SumBack(a, w0);
    XorInverse(Plus(a, w0), w1);
    SumBack(b, w2);
    XorInverse(Minus(b, w2), w3);
    var p := Xor(y, w3);
    var q := Xor(Plus(p, w2), w1);
    XorInverse(y, w3);
    SumBack(p, w2);
    XorInverse(Plus(p, w2), w1);
    SumBack(q, w0);
    XorInverse(Minus(q, w0), w0);
  }

  lemma SumBack(x: word, w: word)
    ensures Minus(Plus(x, w), w) == x
    ensures Plus(Minus(x, w), w) == x
  {
    hide Plus, Minus;
    PlusInverse(w, x);
    PlusEither(x, w);
    PlusEither(Minus(x, w), w);
  }

  /** One byte of the password, exactly: take the rotation back bit by bit and undo the
      arithmetic with the four words the byte and its predecessor make, and y is there again. */
  lemma StepUndone(y: word, prev: byte, b: byte) returns (m: word)
    ensures var low, pair := b as word, (prev as word) * 0x100_0000 + (b as word);
            Unmix(m, pair, low * 0x100, low * 0x1_0000, low * 0x100_0000) == y
    ensures HashStep(y, prev, b) == RotateBySelf(m)
  {
    var low, pair := b as word, ((prev as word) << 24) | (b as word);
    WordsOfByte(prev, b);
    hide Mix, Unmix, RotateBySelf;
    m := Mix(y, pair, low << 8, low << 16, low << 24);
    MixInverse(y, pair, low << 8, low << 16, low << 24);
  }

  lemma WordsOfByte(prev: byte, b: byte)
    ensures ((prev as word) << 24) | (b as word) == (prev as word) * 0x100_0000 + (b as word)
    ensures (b as word) << 8 == (b as word) * 0x100
    ensures (b as word) << 16 == (b as word) * 0x1_0000
    ensures (b as word) << 24 == (b as word) * 0x100_0000
  {}

  /** The hash resumed from the value y after the byte prev. */
  function HashFrom(y: word, prev: byte, password: seq<byte>): word
    decreases |password|
  {
    if password == [] then y
    else HashFrom(HashStep(y, prev, password[0]), password[0], password[1..])
  }

  /** GG32: no byte has been read yet, and y is the seed. */
  function LoginHash(password: seq<byte>, seed: word): word
  {
    HashFrom(seed, 0, password)
  }

  function LastByte(prev: byte, p: seq<byte>): byte
  {
    if p == [] then prev else p[|p| - 1]
  }

  /** The loop keeps no more history than y and the last byte: hashing p ++ q is hashing
      q from where p ended. */
  lemma {:induction false} HashResumes(y: word, prev: byte, p: seq<byte>, q: seq<byte>)
    ensures HashFrom(y, prev, p + q) == HashFrom(HashFrom(y, prev, p), LastByte(prev, p), q)
    decreases |p|
  {
    hide HashStep;
    if p == [] {
      assert p + q == q;
    } else {
      assert (p + q)[1..] == p[1..] + q;
      HashResumes(HashStep(y, prev, p[0]), p[0], p[1..], q);
      assert LastByte(p[0], p[1..]) == LastByte(prev, p);
    }
  }

  /** What the masks and shifts leave of x when it holds prev << 24. */
  lemma HistoryOfX(prev: byte, b: byte)
    ensures var x := (((prev as word) << 24) & 0xFFFFFF00) | (b as word);
            x == ((prev as word) << 24) | (b as word) &&
            x << 8 == (b as word) << 8 &&
            (x << 8) << 8 == (b as word) << 16 &&
            ((x << 8) << 8) << 8 == (b as word) << 24
  {}

  /** The body of gg_login_hash's loop, statement by statement. */
  method HashByte(x0: word, y0: word, ghost prev: byte, b: byte) returns (x: word, y: word)
    requires x0 == (prev as word) << 24
    ensures x == (b as word) << 24
    ensures y == HashStep(y0, prev, b)
  {
    hide Plus, Minus, Xor, RotateBySelf;
    HistoryOfX(prev, b);
    x := (x0 & 0xFFFFFF00) | (b as word);
    y := Xor(y0, x);
    y := Plus(y, x);
    x := x << 8;
    y := Xor(y, x);
    x := x << 8;
    y := Minus(y, x);
    x := x << 8;
    y := Xor(y, x);
    y := RotateBySelf(y);
  }

  /** The loop runs to the end of the C string. */
  method GgLoginHash(password: array<byte>, seed: word) returns (y: word)
    requires 0 in password[..]
    ensures y == LoginHash(Before(password[..], 0), seed)
  {
    hide HashStep, Before, HashFrom;
    y := seed;
    var x: word := 0;
    var i := 0;
    ghost var prev: byte := 0;
    NothingHashed(seed);
    while password[i] != 0
      invariant i < password.Length && 0 in password[i..] && 0 !in password[..i]
      invariant x == (prev as word) << 24 && prev == LastByte(0, password[..i])
      invariant y == HashFrom(seed, 0, password[..i])
      decreases password.Length - i
    {
      var b := password[i];
      HashResumes(seed, 0, password[..i], [b]);
      OneByte(y, prev, b);
      assert password[..i + 1] == password[..i] + [b];
      assert password[i..] == [b] + password[i + 1..];
      x, y := HashByte(x, y, prev, b);
      prev := b;
      i := i + 1;
    }
    BeforeIs(password[..], 0, i);
    assert password[..][..i] == password[..i];
  }

  lemma NothingHashed(seed: word)
    ensures HashFrom(seed, 0, []) == seed
  {}

  lemma OneByte(y: word, prev: byte, b: byte)
    ensures HashFrom(y, prev, [b]) == HashStep(y, prev, b)
  {
    hide HashStep;
    assert HashFrom(HashStep(y, prev, b), b, []) == HashStep(y, prev, b);
  }

  /** Hashes of "a" and "abc". */
  lemma KnownHashes()
    ensures LoginHash([0x61], 1) == 0x3D3EC383
    ensures LoginHash([0x61, 0x62, 0x63], 0x12345678) == 0xAAF9EC1D
  {}

  // ---- SHA-1 login ----

  /** The digest of the password followed by the four bytes of the seed. */
  function LoginDigest(password: seq<byte>, seed: word): (d: seq<byte>)
    ensures |d| == 20
  {
    Sha1Spec.Digest(password + LE32(seed))
  }

  method GgLoginHashSha1(pass: array<byte>, seed: word, result: array<byte>)
    requires 0 in pass[..] && result.Length == 20 && result != pass
    modifies result
    ensures result[..] == LoginDigest(Before(pass[..], 0), seed)
  {
    hide Sha1Spec.Digest, LE32, Before, Sha1.Context.Valid;
    var length := StrLen(pass);
    var ctx := new Sha1.Context();
    ctx.Update(pass[..length]);
    ctx.Update(LE32(seed));
    assert ctx.message == Before(pass[..], 0) + LE32(seed);
    ctx.Final(result);
  }

  // ---- authorization ----

  /** The account exists, is active, and has a password to check against. */
  predicate HasPassword(t: Table, uin: nat)
  {
    Taken(t, uin) && StoredPassword(t[uin]) != []
  }

  predicate Authorized(t: Table, uin: nat, seed: word, hash: word)
  {
    HasPassword(t, uin) && LoginHash(StoredPassword(t[uin]), seed) == hash
  }

  predicate Authorized70(t: Table, uin: nat, seed: word, response: seq<byte>)
  {
    HasPassword(t, uin) && LoginDigest(StoredPassword(t[uin]), seed) <= response
  }

  method Authorize(db: Database, uin: nat, seed: word, hash: word) returns (ok: bool)
    ensures ok == Authorized(db.rows, uin, seed, hash)
  {
    hide LoginHash, Before, StoredPassword;
    var user := new User();
    var found := db.FindByUin(uin, user);
    if !found {
      return false;
    }
    EmptyText(user.password[..]);
    if user.password[0] == 0 {
      return false;
    }
    var computed := GgLoginHash(user.password, seed);
    return computed == hash;
  }

  lemma EmptyText(s: seq<byte>)
    requires s != []
    ensures Before(s, 0) == [] <==> s[0] == 0
  {}

  method Authorize70(db: Database, uin: nat, seed: word, response: seq<byte>) returns (ok: bool)
    requires |response| >= 20
    ensures ok == Authorized70(db.rows, uin, seed, response)
  {
    hide LoginDigest, Before, StoredPassword;
    var user := new User();
    var found := db.FindByUin(uin, user);
    if !found {
      return false;
    }
    EmptyText(user.password[..]);
    if user.password[0] == 0 {
      return false;
    }
    var hash := new byte[20];
    GgLoginHashSha1(user.password, seed, hash);
    ok := StartsWith(response, hash);
  }

  /** The comparison loop. */
  method StartsWith(response: seq<byte>, hash: array<byte>) returns (ok: bool)
    requires |response| >= 20 == hash.Length
    ensures ok == (hash[..] <= response)
  {
    for i := 0 to 20
      invariant response[..i] == hash[..i]
    {
      if response[i] != hash[i] {
        assert hash[..][i] != response[i];
        return false;
      }
    }
    assert hash[..20] == hash[..];
    return true;
  }

  /** A registration that succeeded with password p lets its owner in for ever: after any
      later registrations and for every seed, the checks accept exactly the hashes of the
      first 63 bytes of p, and nothing when p is empty. For 1 to 63 bytes that is p itself. */
  lemma RegisterThenLogin(t: Table, q: Request, r: int, ts: seq<Table>, qs: seq<Request>, j: nat, seed: word)
    requires History(ts, qs) && j <= |qs|
    requires Registered(t, q, r, ts[0]) && r > 0
    ensures q.password.Some?
    ensures var p := q.password.value;
            var kept := if |p| <= 63 then p else p[..63];
            && (forall hash :: Authorized(ts[j], r, seed, hash) <==> p != [] && hash == LoginHash(kept, seed))
            && (forall response :: Authorized70(ts[j], r, seed, response)
                 <==> p != [] && LoginDigest(kept, seed) <= response)
  {
    hide LoginHash, LoginDigest;
    RegisteredKeeps(t, q, r, ts[0]);
    HistoryKeeps(ts, qs, 0, j);
  }
}
