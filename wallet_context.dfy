/**
 * The wallet session of `WalletProvider` and the onboarding handlers that
 * drive it, as a class whose fields are the session's state. Each method is
 * one atomic step and is proved to perform the matching WalletSpec
 * transition; every method keeps the account list contiguous.
 */
module WalletContext {
  import opened Text
  import opened Accounts
  import Onboarding
  import WalletSpec

  class WalletSession {
    /** The crypto libraries `generateAccount` calls. */
    const crypto: Crypto
    var recoveryPhrase: seq<string>
    var accounts: seq<Account>
    var currCard: int

    /** `generateAccount` over this session's crypto libraries. */
    function Derive(): WalletSpec.Derivation
    {
      (m: string, i: nat) => GenerateAccount(crypto, m, i)
    }

    function State(): WalletSpec.WalletState
      reads this
    {
      WalletSpec.WalletState(recoveryPhrase, accounts, currCard)
    }

    /** The account list is always `generateAccount` of the joined phrase at 0, 1, 2, ... */
    ghost predicate Valid()
      reads this
    {
      WalletSpec.Contiguous(Derive(), State())
    }

    /** A provider starts with no phrase, no accounts and the cursor on the first card. */
    constructor (crypto: Crypto)
      ensures this.crypto == crypto
      ensures State() == WalletSpec.Initial
      ensures Valid()
    {
      this.crypto := crypto;
      recoveryPhrase := [];
      accounts := [];
      currCard := 0;
    }

    method NextCard()
      requires Valid()
      modifies this
      ensures State() == WalletSpec.NextCard(old(State()))
      ensures Valid()
    {
      currCard := currCard + 1;
    }

    method PrevCard()
      requires Valid()
      modifies this
      ensures State() == WalletSpec.PrevCard(old(State()))
      ensures Valid()
    {
      currCard := currCard - 1;
    }

    /** `createWallet`, given the mnemonic `generateMnemonic` produced. */
    method CreateWallet(mnemonic: string)
      modifies this
      ensures State() == WalletSpec.CreateWallet(Derive(), old(State()), mnemonic)
      ensures Join(recoveryPhrase) == mnemonic && |accounts| == 1
      ensures Valid()
    {
      recoveryPhrase := Split(mnemonic);
      var newAccount := GenerateAccount(crypto, mnemonic, 0);
      accounts := [newAccount];
    }

    method RestoreWallet(mnemonic: string)
      modifies this
      ensures State() == WalletSpec.RestoreWallet(Derive(), old(State()), mnemonic)
      ensures Join(recoveryPhrase) == mnemonic && |accounts| == 1
      ensures Valid()
    {
      recoveryPhrase := Split(mnemonic);
      var restoredAccount := GenerateAccount(crypto, mnemonic, 0);
      accounts := [restoredAccount];
    }

    method AddAccount()
      requires Valid()
      modifies this
      ensures State() == WalletSpec.AddAccount(Derive(), old(State()))
      ensures accounts == old(accounts) + [GenerateAccount(crypto, Join(recoveryPhrase), |old(accounts)|)]
      ensures Valid()
    {
      var newAccount := GenerateAccount(crypto, Join(recoveryPhrase), |accounts|);
      accounts := accounts + [newAccount];
      WalletSpec.AddAccountKeepsContiguous(Derive(), old(State()));
    }

    /** `handleCreateWallet` of the first card. */
    method HandleCreateWallet(mnemonic: string)
      modifies this
      ensures State() == WalletSpec.HandleCreateWallet(Derive(), old(State()), mnemonic)
      ensures currCard == old(currCard) + 1
      ensures Valid()
    {
      CreateWallet(mnemonic);
      NextCard();
    }

    /**
     * `handleConfirm` of the confirmation card; `matched` is false exactly
     * when the source raises its mismatch alert.
     */
    method HandleConfirm(enteredPhrase: string) returns (matched: bool)
      requires Valid()
      modifies this
      ensures matched <==> enteredPhrase == Join(recoveryPhrase)
      ensures State() == WalletSpec.HandleConfirm(old(State()), enteredPhrase)
      ensures matched ==> currCard == old(currCard) + 1
      ensures !matched ==> State() == old(State())
      ensures Valid()
    {
      matched := Onboarding.PhraseMatches(enteredPhrase, recoveryPhrase);
      if matched {
        NextCard();
      }
    }

    /** `handleRestoreWallet` of the restore card. */
    method HandleRestoreWallet(mnemonic: string)
      modifies this
      ensures State() == WalletSpec.HandleRestoreWallet(Derive(), old(State()), mnemonic)
      ensures Join(recoveryPhrase) == mnemonic && |accounts| == 1
      ensures currCard == old(currCard) + 1
      ensures Valid()
    {
      RestoreWallet(mnemonic);
      NextCard();
    }
  }
}
