/**
 * The Hedera service of src/utils/hedera.js: the network choice made when the
 * singleton is constructed, the two total wrappers around the SDK
 * (`validateAccountId`, `verifySignature`) and the challenge template. The SDK
 * itself (`@hashgraph/sdk`) is an oracle: account-id parsing, public-key
 * parsing and signature verification, each of which may throw.
 */
module Hedera {
  import opened Wrappers
  import opened JsBuiltins
  import opened NodeBuffer

  datatype Network = Mainnet | Testnet | Previewnet

  /** What `AccountId.fromString` produces: shard, realm and account number. */
  datatype AccountId = AccountId(shard: nat, realm: nat, num: nat)

  /** What `PublicKey.fromString` produces; its contents belong to the SDK. */
  datatype PublicKey = PublicKey(encoded: seq<byte>)

  /**
   * The SDK calls the service makes; `None` stands for a thrown error.
   * `keyVerify(key, message, signature)` is `publicKey.verify`.
   */
  datatype Sdk = Sdk(
    accountIdFromString: string -> Option<AccountId>,
    publicKeyFromString: string -> Option<PublicKey>,
    keyVerify: (PublicKey, seq<byte>, seq<byte>) -> Option<bool>)

  /** The client `initializeClient` builds for a network name: only two names are special. */
  function SelectNetwork(name: string): (network: Network)
    ensures network == Mainnet <==> name == "mainnet"
    ensures network == Previewnet <==> name == "previewnet"
  {
    if name == "mainnet" then Mainnet
    else if name == "previewnet" then Previewnet
    else Testnet
  }

  /** The service object: the configured network name, the client, and the SDK it calls. */
  class HederaService {
    var network: string
    var client: Option<Network>
    const sdk: Sdk

    /** `network` is `HEDERA_NETWORK || 'testnet'`; the client is built straight away. */
    constructor (hederaNetwork: Option<string>, sdk: Sdk)
      ensures this.sdk == sdk
      ensures network == OrElse(hederaNetwork, "testnet")
      ensures client == Some(SelectNetwork(network))
    {
      this.sdk := sdk;
      network := OrElse(hederaNetwork, "testnet");
      client := None;
      new;
      InitializeClient();
    }

    /** Builds the client for the configured network; the network name stays as it is. */
    method InitializeClient()
      modifies this`client
      ensures client == Some(SelectNetwork(network))
    {
      if network == "mainnet" {
        client := Some(Mainnet);
      } else if network == "previewnet" {
        client := Some(Previewnet);
      } else {
        client := Some(Testnet);
      }
    }
  }

  /** Which network each configured name selects, in both directions. */
  lemma SelectNetworkCases(name: string)
    ensures SelectNetwork(name) == Mainnet <==> name == "mainnet"
    ensures SelectNetwork(name) == Previewnet <==> name == "previewnet"
    ensures SelectNetwork(name) == Testnet <==> name != "mainnet" && name != "previewnet"
  {
  }

  /** An unset or empty `HEDERA_NETWORK` selects the test network. */
  lemma DefaultNetworkIsTestnet(hederaNetwork: Option<string>)
    requires !Truthy(hederaNetwork)
    ensures SelectNetwork(OrElse(hederaNetwork, "testnet")) == Testnet
  {
  }

  // ---------------------------------------------------------------------------
  // validateAccountId and verifySignature: the SDK behind a total boolean
  // ---------------------------------------------------------------------------

  /** `validateAccountId`: true exactly when `AccountId.fromString` does not throw. */
  function ValidateAccountId(sdk: Sdk, accountIdString: string): (ok: bool)
    ensures ok <==> sdk.accountIdFromString(accountIdString).Some?
  {
    match sdk.accountIdFromString(accountIdString)
    case Some(_) => true
    case None => false
  }

  /**
   * `verifySignature`: parses the key, encodes the message as UTF-8 and the
   * signature from hex, and asks the key; every throw becomes `false`. The
   * account id is not used.
   */
  function VerifySignature(sdk: Sdk, accountIdString: string, message: string,
                           signatureHex: string, publicKeyString: string): (valid: bool)
    ensures valid ==> sdk.publicKeyFromString(publicKeyString).Some?
    ensures valid ==> sdk.keyVerify(sdk.publicKeyFromString(publicKeyString).value,
                                    Utf8Encode(message), HexDecode(signatureHex)) == Some(true)
  {
    match sdk.publicKeyFromString(publicKeyString)
    case None => false
    case Some(key) =>
      match sdk.keyVerify(key, Utf8Encode(message), HexDecode(signatureHex))
      case None => false
      case Some(valid) => valid
  }

  /**
   * `verifySignature` never fails: an unparsable key or a throwing `verify`
   * give `false`, and `true` means the key accepted the UTF-8 bytes of the
   * message with the hex-decoded signature.
   */
  lemma VerifySignatureTotal(sdk: Sdk, accountIdString: string, message: string,
                             signatureHex: string, publicKeyString: string)
    ensures sdk.publicKeyFromString(publicKeyString).None? ==>
      !VerifySignature(sdk, accountIdString, message, signatureHex, publicKeyString)
    ensures VerifySignature(sdk, accountIdString, message, signatureHex, publicKeyString) <==>
      && sdk.publicKeyFromString(publicKeyString).Some?
      && sdk.keyVerify(sdk.publicKeyFromString(publicKeyString).value,
                       Utf8Encode(message), HexDecode(signatureHex)) == Some(true)
  {
  }

  /** The key is not bound to the account: the account id never changes the verdict. */
  lemma VerifySignatureIgnoresAccountId(sdk: Sdk, a1: string, a2: string, message: string,
                                        signatureHex: string, publicKeyString: string)
    ensures VerifySignature(sdk, a1, message, signatureHex, publicKeyString)
         == VerifySignature(sdk, a2, message, signatureHex, publicKeyString)
  {
  }

  /**
   * The lenient hex decoding (of Latin-1 text) makes a signature followed by
   * anything that does not start with a hex pair (an odd digit, spaces, a
   * suffix) verify exactly like the bare signature.
   */
  lemma VerifySignatureIgnoresHexJunk(sdk: Sdk, accountIdString: string, message: string,
                                      signature: seq<byte>, junk: string, publicKeyString: string)
    requires !StartsWithHexPair(junk)
    ensures VerifySignature(sdk, accountIdString, message, HexEncode(signature) + junk, publicKeyString)
         == VerifySignature(sdk, accountIdString, message, HexEncode(signature), publicKeyString)
  {
    HexDecodeIgnoresJunk(signature, junk);
    HexRoundTrip(signature);
  }

  /** Distinct messages reach the key as distinct byte strings. */
  lemma VerifiedBytesDetermineMessage(m1: string, m2: string)
    requires m1 != m2
    ensures Utf8Encode(m1) != Utf8Encode(m2)
  {
    if Utf8Encode(m1) == Utf8Encode(m2) {
      Utf8Injective(m1, m2);
    }
  }

  // ---------------------------------------------------------------------------
  // generateChallenge
  // ---------------------------------------------------------------------------

  const ChallengePrefix: string := "Sign this message to authenticate with your Hedera account "
  const TimestampLabel: string := ". Timestamp: "
  const NonceLabel: string := ". Nonce: "

  /** `Math.random().toString(36).substring(2, 15)`, given the base-36 rendering. */
  function Nonce(random36: string): (nonce: string)
    ensures |nonce| <= 13
    ensures |random36| >= 15 ==> nonce == random36[2..15]
    ensures 2 <= |random36| <= 15 ==> nonce == random36[2..]
    ensures |random36| <= 2 ==> nonce == ""
  {
    Substring(random36, 2, 15)
  }

  /**
   * `generateChallenge(accountId)`, with the `Date.now()` reading and the
   * base-36 rendering of the `Math.random()` draw passed in.
   */
  function GenerateChallenge(accountId: string, timestamp: nat, random36: string): (text: string)
    ensures text != ""  // so a stored challenge is never falsy
    ensures |text| == |ChallengePrefix| + |accountId| + |TimestampLabel| + |DecimalString(timestamp)|
                      + |NonceLabel| + |Nonce(random36)|
  {
    ChallengePrefix + accountId + TimestampLabel + DecimalString(timestamp) + NonceLabel + Nonce(random36)
  }

  /** The challenge text carries the account id, the timestamp and the nonce at fixed places. */
  lemma ChallengeEmbeds(accountId: string, timestamp: nat, random36: string)
    ensures var text := GenerateChallenge(accountId, timestamp, random36);
      var i := |ChallengePrefix|;
      var j := i + |accountId| + |TimestampLabel|;
      var k := j + |DecimalString(timestamp)| + |NonceLabel|;
      && text[..i] == ChallengePrefix
      && text[i..i + |accountId|] == accountId
      && text[i + |accountId|..j] == TimestampLabel
      && text[j..j + |DecimalString(timestamp)|] == DecimalString(timestamp)
      && text[j + |DecimalString(timestamp)|..k] == NonceLabel
      && text[k..] == Nonce(random36)
  {
    SliceOfConcat6(ChallengePrefix, accountId, TimestampLabel, DecimalString(timestamp), NonceLabel, Nonce(random36));
  }

  /** Each piece of a six-part concatenation sits at its offset. */
  lemma SliceOfConcat6(a: string, b: string, c: string, d: string, e: string, f: string)
    ensures var s := a + b + c + d + e + f;
      var j := |a| + |b| + |c|;
      && s[..|a|] == a
      && s[|a|..|a| + |b|] == b
      && s[|a| + |b|..j] == c
      && s[j..j + |d|] == d
      && s[j + |d|..j + |d| + |e|] == e
      && s[j + |d| + |e|..] == f
  {
    var s := a + b + c + d + e + f;
    var j := |a| + |b| + |c|;
    assert s == a + b + (c + d + e + f);
    assert s == (a + b) + c + (d + e + f);
    assert s == (a + b + c + d) + e + f;
    assert s == (a + b + c) + d + (e + f);
    assert s == (a + b + c + d + e) + f;
  }

  /** For a fixed account and timestamp, distinct nonces give distinct challenges. */
  lemma ChallengeDistinctNonces(accountId: string, timestamp: nat, r1: string, r2: string)
    requires Nonce(r1) != Nonce(r2)
    ensures GenerateChallenge(accountId, timestamp, r1) != GenerateChallenge(accountId, timestamp, r2)
  {
    var head := ChallengePrefix + accountId + TimestampLabel + DecimalString(timestamp) + NonceLabel;
    assert GenerateChallenge(accountId, timestamp, r1)[|head|..] == Nonce(r1);
    assert GenerateChallenge(accountId, timestamp, r2)[|head|..] == Nonce(r2);
  }

  /**
   * For a fixed account and nonce, distinct timestamps give distinct challenges
   * (a special case of ChallengeInjectiveForAccount).
   */
  lemma ChallengeDistinctTimestamps(accountId: string, t1: nat, t2: nat, random36: string)
    requires t1 != t2
    ensures GenerateChallenge(accountId, t1, random36) != GenerateChallenge(accountId, t2, random36)
  {
    var c1 := GenerateChallenge(accountId, t1, random36);
    var c2 := GenerateChallenge(accountId, t2, random36);
    if c1 == c2 {
      var j := |ChallengePrefix| + |accountId| + |TimestampLabel|;
      var d1, d2 := DecimalString(t1), DecimalString(t2);
      assert |d1| == |d2|;
      assert c1[j..j + |d1|] == d1;
      assert c2[j..j + |d2|] == d2;
      DecimalStringInjective(t1, t2);
    }
  }

  /**
   * Two challenges for one account differ whenever their timestamps or their
   * nonces do: the timestamp is the run of digits after `. Timestamp: `, and
   * with equal timestamps the nonces sit at the same place.
   */
  lemma ChallengeInjectiveForAccount(accountId: string, t1: nat, r1: string, t2: nat, r2: string)
    requires t1 != t2 || Nonce(r1) != Nonce(r2)
    ensures GenerateChallenge(accountId, t1, r1) != GenerateChallenge(accountId, t2, r2)
  {
    if t1 != t2 {
      var c1 := GenerateChallenge(accountId, t1, r1);
      var c2 := GenerateChallenge(accountId, t2, r2);
      var j := |ChallengePrefix| + |accountId| + |TimestampLabel|;
      var d1, d2 := DecimalString(t1), DecimalString(t2);
      var tail1, tail2 := NonceLabel + Nonce(r1), NonceLabel + Nonce(r2);
      assert c1[j..] == d1 + tail1;
      assert c2[j..] == d2 + tail2;
      assert tail1[0] == '.' && tail2[0] == '.';
      LeadingDigitsStop(d1, tail1, 10);
      LeadingDigitsStop(d2, tail2, 10);
      DecimalValue(t1);
      DecimalValue(t2);
      assert LeadingDigits(c1[j..], 10) != LeadingDigits(c2[j..], 10);
    } else {
      ChallengeDistinctNonces(accountId, t1, r1, r2);
    }
  }

  /** For a fixed timestamp and nonce, distinct accounts get distinct challenges. */
  lemma ChallengeDistinctAccounts(a1: string, a2: string, timestamp: nat, random36: string)
    requires a1 != a2
    ensures GenerateChallenge(a1, timestamp, random36) != GenerateChallenge(a2, timestamp, random36)
  {
    var c1 := GenerateChallenge(a1, timestamp, random36);
    var c2 := GenerateChallenge(a2, timestamp, random36);
    var i := |ChallengePrefix|;
    if |a1| == |a2| {
      assert c1[i..i + |a1|] == a1;
      assert c2[i..i + |a2|] == a2;
    }
  }
}
