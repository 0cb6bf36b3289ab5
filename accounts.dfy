/**
 * Account derivation (`generateAccount`): the hardened BIP-44 path for an
 * account index, the foreign key-derivation pipeline it feeds, and the
 * rendering of the resulting keypair as an account record.
 */
module Accounts {
  import opened Wrappers
  import opened Encoding

  /** An account as the session stores it: base58 public key, hex secret key. */
  datatype Account = Account(publicKey: string, privateKey: string)

  /** An ed25519 keypair as `Keypair.fromSeed` returns it. */
  datatype Keypair = Keypair(publicKey: seq<byte>, secretKey: seq<byte>)

  /**
   * The foreign libraries `generateAccount` calls, as deterministic functions
   * whose insides are not modelled:
   * - mnemonicToSeed: BIP-39 mnemonic-to-seed (PBKDF2-HMAC-SHA512);
   * - derivePath: SLIP-0010 ed25519 child derivation from a path and the
   *   hex text of the seed, returning the derived key bytes;
   * - fromSeed: the ed25519 keypair of a 32-byte seed (section 5.1.5 of RFC 8032);
   * - toBase58: base58 text of a public key.
   */
  datatype Crypto = Crypto(
    mnemonicToSeed: string -> seq<byte>,
    derivePath: (string, string) -> seq<byte>,
    fromSeed: seq<byte> -> Keypair,
    toBase58: seq<byte> -> string)

  /** BIP-44 purpose level and the Solana coin type, the only chain the wallet derives for. */
  const Purpose: nat := 44
  const SolanaCoinType: nat := 501

  /**
   * The template literal `m/44'/501'/${index}'/0'`: the decimal index sits
   * between the fixed purpose and coin-type levels and the fixed change level.
   */
  function DerivationPath(index: nat): (p: string)
    ensures |p| == 15 + |Decimal(index)|
    ensures p[..11] == "m/44'/501'/" && p[|p| - 4..] == "'/0'"
    ensures p[11..|p| - 4] == Decimal(index)
  {
    "m/44'/501'/" + Decimal(index) + "'/0'"
  }

  /** A BIP-44 style path in which every level is hardened: `m`, then `/<level>'` per level. */
  function HardenedPath(levels: seq<nat>): string
  {
    if |levels| == 0 then "m"
    else HardenedPath(levels[..|levels| - 1]) + "/" + Decimal(levels[|levels| - 1]) + "'"
  }

  /**
   * The derivation path is the BIP-44 path purpose 44, coin type 501, account
   * `index`, change 0, with every level hardened.
   */
  lemma DerivationPathLevels(index: nat)
    ensures DerivationPath(index) == HardenedPath([Purpose, SolanaCoinType, index, 0])
  {
    assert Decimal(44) == "44" by { assert Decimal(4) == "4"; }
    assert Decimal(501) == "501" by {
      assert Decimal(5) == "5";
      assert Decimal(50) == "50";
    }
    assert Decimal(0) == "0";
    var levels := [Purpose, SolanaCoinType, index, 0];
    assert levels[..3] == [Purpose, SolanaCoinType, index];
    assert levels[..3][..2] == [Purpose, SolanaCoinType];
    assert levels[..3][..2][..1] == [Purpose];
    assert [Purpose][..0] == [];
    assert HardenedPath([Purpose]) == "m/44'";
    assert HardenedPath([Purpose, SolanaCoinType]) == "m/44'/501'";
    assert HardenedPath([Purpose, SolanaCoinType, index]) == "m/44'/501'/" + Decimal(index) + "'";
  }

  /** Distinct account indices give distinct derivation paths. */
  lemma DerivationPathInjective(i: nat, j: nat)
    ensures DerivationPath(i) == DerivationPath(j) ==> i == j
  {
    DecimalInjective(i, j);
  }

  /** `derivedSeed.slice(0, 32)`: JavaScript clamps the end to the length. */
  function SeedSlice(key: seq<byte>): (r: seq<byte>)
    ensures |r| == if |key| < 32 then |key| else 32
    ensures r <= key
  {
    if |key| <= 32 then key else key[..32]
  }

  /**
   * The keypair of account `index`: seed, hex text of the seed, path
   * derivation, first 32 bytes, ed25519. The keypair comes from the first 32
   * bytes of the key derived at this index's path from the hex seed, or the
   * whole key if it is shorter.
   */
  function AccountKeypair(c: Crypto, mnemonic: string, index: nat): (kp: Keypair)
    ensures var derivedKey := c.derivePath(DerivationPath(index), Hex(c.mnemonicToSeed(mnemonic)));
      exists k :: && k <= derivedKey
                  && |k| == (if |derivedKey| < 32 then |derivedKey| else 32)
                  && kp == c.fromSeed(k)
  {
    var seed := c.mnemonicToSeed(mnemonic);
    var derivedSeed := c.derivePath(DerivationPath(index), Hex(seed));
    c.fromSeed(SeedSlice(derivedSeed))
  }

  /**
   * `generateAccount(mnemonic, index)`: the public key is the base58 text of
   * the keypair's public key, and the private key is lowercase hex, two
   * digits per secret-key byte, that reads back as exactly the secret key.
   */
  function GenerateAccount(c: Crypto, mnemonic: string, index: nat): (a: Account)
    ensures var kp := AccountKeypair(c, mnemonic, index);
      && a.publicKey == c.toBase58(kp.publicKey)
      && |a.privateKey| == 2 * |kp.secretKey|
      && UnHex(a.privateKey) == kp.secretKey
  {
    var kp := AccountKeypair(c, mnemonic, index);
    UnHexOfHex(kp.secretKey);
    Account(c.toBase58(kp.publicKey), Hex(kp.secretKey))
  }

  /**
   * The private key is lowercase hexadecimal throughout, and a 64-byte
   * ed25519 secret key is rendered as 128 characters.
   */
  lemma PrivateKeyText(c: Crypto, mnemonic: string, index: nat)
    ensures var a := GenerateAccount(c, mnemonic, index);
      && (forall i :: 0 <= i < |a.privateKey| ==> IsLowerHexDigit(a.privateKey[i]))
      && (|AccountKeypair(c, mnemonic, index).secretKey| == 64 ==> |a.privateKey| == 128)
  {
  }

  /**
   * The account depends on the mnemonic only through its seed: two
   * mnemonics with the same seed yield the same account at every index.
   */
  lemma GenerateAccountDependsOnSeed(c: Crypto, m1: string, m2: string, index: nat)
    requires c.mnemonicToSeed(m1) == c.mnemonicToSeed(m2)
    ensures GenerateAccount(c, m1, index) == GenerateAccount(c, m2, index)
  {
  }

  /**
   * `accounts.find(account => account.publicKey === key)`, as the position of
   * the first account with that public key.
   */
  function FindByPublicKey(accounts: seq<Account>, key: string): (r: Option<nat>)
    ensures r.Some? ==> r.value < |accounts| && accounts[r.value].publicKey == key
    ensures r.Some? ==> forall j :: 0 <= j < r.value ==> accounts[j].publicKey != key
    ensures r.None? ==> forall j :: 0 <= j < |accounts| ==> accounts[j].publicKey != key
  {
    if |accounts| == 0 then None
    else if accounts[0].publicKey == key then Some(0)
    else match FindByPublicKey(accounts[1..], key)
      case None => None
      case Some(k) => Some(k + 1)
  }
}
