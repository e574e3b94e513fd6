/** Key derivation, the password check and the position-keyed XOR stream of encrypted entries. */
module Cipher {
  import opened Arith
  import opened Bytes
  import opened Layout
  import opened Hash
  import opened Entries
  import opened Names

  const KEY_SIZE: nat := 32

  // ---- Keys ----

  function Material(password: seq<byte>, salt: seq<byte>): seq<byte> {
    password[..StrLen(password, 256)] + salt
  }

  function KeyWord(material: seq<byte>, block: nat): (h: nat)
    ensures h < TWO_32
  {
    FnvFrom(Xor32(FNV_BASIS, block * 0x9E3779B9 % TWO_32), material)
  }

  function KeyBytes(material: seq<byte>, blocks: nat): (key: seq<byte>)
    ensures |key| == 4 * blocks
  {
    if blocks == 0 then [] else KeyBytes(material, blocks - 1) + LE(KeyWord(material, blocks - 1), 4)
  }

  function Key(password: seq<byte>, salt: seq<byte>): (key: seq<byte>)
    ensures |key| == KEY_SIZE
  {
    KeyBytes(Material(password, salt), 8)
  }

  /** vtx2_derive_key. */
  method DeriveKey(password: seq<byte>, salt: seq<byte>) returns (key: seq<byte>)
    requires |salt| == SALT_SIZE
    ensures key == Key(password, salt)
  {
    hide Round, FnvFrom, LE, StrLen, Xor32;
    var passLen := StrLenBounded(password, 256);
    var material := password[..passLen] + salt;
    key := [];
    var block := 0;
    while block < 8
      invariant block <= 8 && key == KeyBytes(material, block)
    {
      var h := FnvLoop(Xor32(FNV_BASIS, block * 0x9E3779B9 % TWO_32), material);
      key := key + LE(h, 4);
      block := block + 1;
    }
  }

  function Tag(): (t: seq<byte>)
    ensures |t| == 7 && forall k :: 0 <= k < 7 ==> t[k] as int == "VTX2CHK"[k] as int
  {
    [0x56, 0x54, 0x58, 0x32, 0x43, 0x48, 0x4B]
  }

  /** compute_verifier, as the four bytes that are stored. */
  function Verifier(key: seq<byte>, salt: seq<byte>): (v: seq<byte>)
    ensures |v| == 4
  {
    LE(Fnv(key + salt + Tag()), 4)
  }

  /** vtx2_check_password accepts this password for this entry. */
  predicate Unlocks(password: seq<byte>, e: Entry) {
    Verifier(Key(password, e.salt), e.salt) == e.verifier
  }

  /** vtx2_check_password. */
  method CheckPassword(key: seq<byte>, salt: seq<byte>, verifier: seq<byte>) returns (ok: bool)
    ensures ok <==> Verifier(key, salt) == verifier
  {
    hide FnvFrom, LE;
    var h := FnvLoop(FNV_BASIS, key + salt + Tag());
    ok := LE(h, 4) == verifier;
  }

  // ---- What keys and verifiers depend on ----

  lemma {:induction false} KeyBlock(material: seq<byte>, blocks: nat, k: nat)
    requires k < blocks
    ensures KeyBytes(material, blocks)[4 * k..4 * k + 4] == LE(KeyWord(material, k), 4)
  {
    hide KeyWord, LE;
    if k < blocks - 1 {
      KeyBlock(material, blocks - 1, k);
      assert KeyBytes(material, blocks)[4 * k..4 * k + 4] == KeyBytes(material, blocks - 1)[4 * k..4 * k + 4];
    }
  }

  lemma LEApart(a: nat, b: nat)
    requires a < TWO_32 && b < TWO_32 && a != b
    ensures LE(a, 4) != LE(b, 4)
  {
    hide LE, UnLE;
    LE4(a);
    LE4(b);
  }

  /** The eight words of a key are hashes from eight different starting values, and differ. */
  lemma WordsDiffer(password: seq<byte>, salt: seq<byte>, j: nat, k: nat)
    requires j < k < 8
    ensures Key(password, salt)[4 * j..4 * j + 4] != Key(password, salt)[4 * k..4 * k + 4]
  {
    hide FnvFrom, LE, Xor32, StrLen;
    var m := Material(password, salt);
    KeyBlock(m, 8, j);
    KeyBlock(m, 8, k);
    var a, b := j * 0x9E3779B9 % TWO_32, k * 0x9E3779B9 % TWO_32;
    assert a != b;
    Xor32Undone(a, FNV_BASIS);
    Xor32Undone(b, FNV_BASIS);
    FnvApart(Xor32(FNV_BASIS, a), Xor32(FNV_BASIS, b), m);
    LEApart(KeyWord(m, j), KeyWord(m, k));
  }

  lemma MaterialTells(material: seq<byte>, i: nat, x: byte, k: nat)
    requires i < |material| && material[i] != x && k < 8
    ensures KeyBytes(material[i := x], 8)[4 * k..4 * k + 4] != KeyBytes(material, 8)[4 * k..4 * k + 4]
  {
    hide FnvFrom, LE, Xor32;
    KeyBlock(material, 8, k);
    KeyBlock(material[i := x], 8, k);
    OneByteTells(Xor32(FNV_BASIS, k * 0x9E3779B9 % TWO_32), material, i, x);
    LEApart(KeyWord(material[i := x], k), KeyWord(material, k));
  }

  /** Every word of the key depends on every character of the password, up to 256 of them. */
  lemma KeySeesPassword(password: seq<byte>, salt: seq<byte>, i: nat, x: byte, k: nat)
    requires i < |CString(password)| && i < 256 && x != password[i] && x != 0 && k < 8
    ensures Key(password[i := x], salt)[4 * k..4 * k + 4] != Key(password, salt)[4 * k..4 * k + 4]
  {
    hide KeyBytes, CString, StrLen;
    var other, c := password[i := x], CString(password);
    CStringIs(other, c[i := x]);
    var n := MinNat(|c|, 256);
    assert StrLen(password, 256) == n && StrLen(other, 256) == n;
    assert other[..n] + salt == (password[..n] + salt)[i := x];
    MaterialTells(Material(password, salt), i, x, k);
  }

  /** And on every byte of the salt. */
  lemma KeySeesSalt(password: seq<byte>, salt: seq<byte>, i: nat, x: byte, k: nat)
    requires i < |salt| && x != salt[i] && k < 8
    ensures Key(password, salt[i := x])[4 * k..4 * k + 4] != Key(password, salt)[4 * k..4 * k + 4]
  {
    hide KeyBytes, StrLen;
    var p := password[..StrLen(password, 256)];
    assert p + salt[i := x] == (p + salt)[|p| + i := x];
    MaterialTells(Material(password, salt), |p| + i, x, k);
  }

  /** A key that differs in one byte is not accepted. */
  lemma VerifierSeesKey(key: seq<byte>, salt: seq<byte>, i: nat, x: byte)
    requires i < |key| && key[i] != x
    ensures Verifier(key[i := x], salt) != Verifier(key, salt)
  {
    hide FnvFrom, LE;
    var m := key + salt + Tag();
    assert key[i := x] + salt + Tag() == m[i := x];
    OneByteTells(FNV_BASIS, m, i, x);
    LEApart(Fnv(m[i := x]), Fnv(m));
  }

  /** The verifier depends on the salt beside the key. */
  lemma VerifierSeesSalt(key: seq<byte>, salt: seq<byte>, i: nat, x: byte)
    requires i < |salt| && salt[i] != x
    ensures Verifier(key, salt[i := x]) != Verifier(key, salt)
  {
    hide FnvFrom, LE;
    var m := key + salt + Tag();
    assert key + salt[i := x] + Tag() == m[|key| + i := x];
    OneByteTells(FNV_BASIS, m, |key| + i, x);
    LEApart(Fnv(m[|key| + i := x]), Fnv(m));
  }

  // ---- The stream ----

  /** xor_keystream_byte; the position is a uint64_t. */
  function KeystreamByte(key: seq<byte>, position: nat): byte {
    var h0 := FnvFrom(FNV_BASIS, key);
    var h1 := Round(h0, position % TWO_32);
    var h2 := Round(h1, position / TWO_32 % TWO_32);
    (Xor32(h2, h2 / 0x8000) % 256) as byte
  }

  method XorKeystreamByte(key: seq<byte>, position: nat) returns (b: byte)
    ensures b == KeystreamByte(key, position)
  {
    hide Round, FnvFrom, Xor32;
    var h := FnvLoop(FNV_BASIS, key);
    h := Round(h, position % TWO_32);
    h := Round(h, position / TWO_32 % TWO_32);
    h := Xor32(h, h / 0x8000);
    b := (h % 256) as byte;
  }

  /** The buffer XORed with the key's stream from position `start` on. */
  function Crypt(key: seq<byte>, start: nat, buf: seq<byte>): (r: seq<byte>)
    ensures |r| == |buf|
  {
    seq(|buf|, i requires 0 <= i < |buf| => XorByte(buf[i], KeystreamByte(key, start + i)))
  }

  /** xor_crypt_buffer, in place on the first `len` bytes. */
  method XorCryptBuffer(key: seq<byte>, start: nat, buf: array<byte>, len: nat)
    requires len <= buf.Length
    modifies buf
    ensures buf[..len] == Crypt(key, start, old(buf[..len]))
    ensures buf[len..] == old(buf[len..])
  {
    hide XorByte, KeystreamByte;
    var i := 0;
    while i < len
      invariant i <= len
      invariant forall j :: 0 <= j < i ==> buf[j] == XorByte(old(buf[j]), KeystreamByte(key, start + j))
      invariant forall j :: i <= j < buf.Length ==> buf[j] == old(buf[j])
    {
      var k := XorKeystreamByte(key, start + i);
      buf[i] := XorByte(buf[i], k);
      i := i + 1;
    }
  }

  /** Under every key every byte value occurs in the stream, so every byte is encrypted to every value somewhere. */
  lemma StreamReaches(key: seq<byte>, v: byte) returns (position: nat)
    ensures position < TWO_32 && KeystreamByte(key, position) == v
  {
    hide Round, FnvFrom, Xor;
    var h0 := FnvFrom(FNV_BASIS, key);
    var h2 := v as nat;
    var h1 := Xor32(h2 * FNV_INVERSE % TWO_32, 0);
    BeforeRound(h2);
    position := RoundReaches(h0, h1);
    Pow2Word();
    XorZero(h2, 32);
  }

  /** The value that a round with 0 takes to r. */
  lemma BeforeRound(r: nat)
    requires r < TWO_32
    ensures Round(Xor32(r * FNV_INVERSE % TWO_32, 0), 0) == r
  {
    hide Xor32;
    Xor32Undone(r * FNV_INVERSE % TWO_32, 0);
    Multiplied(r);
  }

  /** Encrypting leaves a byte as it is exactly where the stream is 0. */
  lemma CryptChanges(key: seq<byte>, start: nat, buf: seq<byte>, i: nat)
    requires i < |buf|
    ensures Crypt(key, start, buf)[i] == buf[i] <==> KeystreamByte(key, start + i) == 0
  {
    hide XorByte, KeystreamByte;
    XorByteChanges(buf[i], KeystreamByte(key, start + i));
  }

  /** Encrypting twice from the same position gives the plain bytes back. */
  lemma CryptTwice(key: seq<byte>, start: nat, buf: seq<byte>)
    ensures Crypt(key, start, Crypt(key, start, buf)) == buf
  {
    hide XorByte, KeystreamByte;
    forall i | 0 <= i < |buf| ensures Crypt(key, start, Crypt(key, start, buf))[i] == buf[i] {
      XorByteTwice(buf[i], KeystreamByte(key, start + i));
    }
  }

  /** The stream is keyed by position, so any piece can be encrypted on its own. */
  lemma CryptSlice(key: seq<byte>, start: nat, buf: seq<byte>, lo: nat, hi: nat)
    requires lo <= hi <= |buf|
    ensures Crypt(key, start + lo, buf[lo..hi]) == Crypt(key, start, buf)[lo..hi]
  {
    hide XorByte, KeystreamByte;
    var a, b := Crypt(key, start + lo, buf[lo..hi]), Crypt(key, start, buf)[lo..hi];
    forall i | 0 <= i < hi - lo ensures a[i] == b[i] {
      assert start + lo + i == start + (lo + i);
    }
  }

  lemma CryptConcat(key: seq<byte>, start: nat, a: seq<byte>, b: seq<byte>)
    ensures Crypt(key, start, a + b) == Crypt(key, start, a) + Crypt(key, start + |a|, b)
  {
    hide Crypt;
    var c := a + b;
    CryptSlice(key, start, c, 0, |a|);
    CryptSlice(key, start, c, |a|, |c|);
    assert c[0..|a|] == a && c[|a|..|c|] == b && start + 0 == start;
    assert Crypt(key, start, c) == Crypt(key, start, c)[0..|a|] + Crypt(key, start, c)[|a|..|c|];
  }

  // ---- Entries ----

  /** What vtx2_finish_encrypted_entry makes of a fresh entry. */
  function Sealed(e: Entry, salt: seq<byte>, password: seq<byte>): Entry {
    e.(salt := salt, verifier := Verifier(Key(password, salt), salt), scheme := 1, nameEncrypted := 1,
       name := Crypt(Key(password, salt), 0, e.name))
  }

  /** vtx2_decrypt_name. */
  method DecryptName(entry: Entry, password: seq<byte>) returns (ok: bool, name: seq<byte>)
    requires |entry.salt| == SALT_SIZE
    ensures ok <==> entry.nameEncrypted == 0 || Unlocks(password, entry)
    ensures ok ==> name == if entry.nameEncrypted == 0 then entry.name
                           else Crypt(Key(password, entry.salt), 0, entry.name)
  {
    hide Crypt, Key, Verifier;
    if entry.nameEncrypted == 0 {
      return true, entry.name;
    }
    name := [];
    var key := DeriveKey(password, entry.salt);
    ok := CheckPassword(key, entry.salt, entry.verifier);
    if !ok {
      return;
    }
    var buf := new byte[|entry.name|](i requires 0 <= i < |entry.name| => entry.name[i]);
    assert buf[..] == entry.name;
    assert buf[..buf.Length] == buf[..];
    XorCryptBuffer(key, 0, buf, buf.Length);
    assert buf[..buf.Length] == buf[..];
    name := buf[..];
  }

  /** The password an entry was sealed with is never rejected, it gives the name back, and others pass only with the same verifier. */
  lemma SealedOpens(e: Entry, salt: seq<byte>, password: seq<byte>)
    ensures var s := Sealed(e, salt, password);
            && Unlocks(password, s) && s.nameEncrypted != 0 && s.scheme != 0
            && Crypt(Key(password, s.salt), 0, s.name) == e.name
    ensures forall other: seq<byte> :: Unlocks(other, Sealed(e, salt, password))
              <==> Verifier(Key(other, salt), salt) == Verifier(Key(password, salt), salt)
  {
    hide Crypt, Key, Verifier;
    CryptTwice(Key(password, salt), 0, e.name);
  }

  // ---- Salts ----

  function SaltState(s: nat, n: nat): (r: nat) {
    if n == 0 then s else (SaltState(s, n - 1) * 1103515245 + 12345) % TWO_32
  }

  /** The generator is the ANSI C one, whose numbers from seed 1 are known. */
  lemma KnownStates(seed: nat)
    requires seed == 1
    ensures SaltState(seed, 1) == 1103527590 && SaltState(seed, 2) == 2524885223
  {
    assert SaltState(seed, 1) == (SaltState(seed, 0) * 1103515245 + 12345) % TWO_32;
  }

  /** The generator never brings two states together. */
  lemma {:induction false} StatesApart(s: nat, t: nat, n: nat)
    requires s < TWO_32 && t < TWO_32 && s != t
    ensures SaltState(s, n) < TWO_32 && SaltState(t, n) < TWO_32 && SaltState(s, n) != SaltState(t, n)
  {
    if n > 0 {
      StatesApart(s, t, n - 1);
      StepUndone(SaltState(s, n - 1));
      StepUndone(SaltState(t, n - 1));
    }
  }

  lemma StepUndone(s: nat)
    requires s < TWO_32
    ensures ((s * 1103515245 + 12345) % TWO_32 + (TWO_32 - 12345)) * 4005161829 % TWO_32 == s
  {
    var n := s * 1103515245 + 12345;
    var q, r := n / TWO_32, n % TWO_32;
    var k := 1029054899 * s - (q - 1) * 4005161829;
    assert (r + (TWO_32 - 12345)) * 4005161829 == k * TWO_32 + s;
    DivUnique((r + (TWO_32 - 12345)) * 4005161829, TWO_32, k, s);
  }

  /** generate_weak_salt and its counter. */
  class SaltSource {
    var counter: nat

    constructor ()
      ensures counter == 0x9E3779B9
    {
      counter := 0x9E3779B9;
    }

    method Generate(mix: nat) returns (salt: seq<byte>)
      modifies this
      ensures var s := Xor32(Xor32(old(counter), mix % TWO_32), mix / TWO_32 % TWO_32);
              && |salt| == SALT_SIZE
              && (forall i :: 0 <= i < SALT_SIZE ==> salt[i] as nat == SaltState(s, i + 1) / 0x100_0000 % 256)
              && counter == Xor32(SaltState(s, SALT_SIZE), 0xA5A5A5A5)
    {
      hide Xor32;
      var s := Xor32(Xor32(counter, mix % TWO_32), mix / TWO_32 % TWO_32);
      ghost var s0 := s;
      salt := [];
      var i := 0;
      while i < SALT_SIZE
        invariant i <= SALT_SIZE && |salt| == i && s == SaltState(s0, i)
        invariant forall j :: 0 <= j < i ==> salt[j] as nat == SaltState(s0, j + 1) / 0x100_0000 % 256
      {
        s := (s * 1103515245 + 12345) % TWO_32;
        salt := salt + [(s / 0x100_0000 % 256) as byte];
        i := i + 1;
      }
      counter := Xor32(s, 0xA5A5A5A5);
    }
  }
}
