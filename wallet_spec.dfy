/**
 * The wallet session as a value: the recovery phrase, the account list and
 * the onboarding cursor, with one function per operation of the session and
 * of the onboarding handlers. The session class in WalletContext is proved
 * to follow these functions; the lemmas here state what they promise.
 */
module WalletSpec {
  import opened Wrappers
  import opened Text
  import opened Accounts
  import opened Onboarding

  /**
   * `generateAccount` as the session sees it: a deterministic function of
   * the mnemonic and the index. The session class instantiates it with
   * `Accounts.GenerateAccount` over its crypto libraries.
   */
  type Derivation = (string, nat) -> Account

  datatype WalletState = WalletState(recoveryPhrase: seq<string>, accounts: seq<Account>, currCard: int)

  /** The state a new provider starts in: no phrase, no accounts, first card. */
  const Initial: WalletState := WalletState([], [], 0)

  /**
   * The account list is the derivation of the current phrase at indices
   * 0, 1, 2, ... in order: no gap, no duplicate index, no foreign account.
   */
  predicate Contiguous(d: Derivation, s: WalletState)
  {
    forall i :: 0 <= i < |s.accounts| ==> s.accounts[i] == d(Join(s.recoveryPhrase), i)
  }

  /** `nextCard`: the cursor moves forward by one, without bound; nothing else changes. */
  function NextCard(s: WalletState): (r: WalletState)
    ensures r.currCard == s.currCard + 1
    ensures r.recoveryPhrase == s.recoveryPhrase && r.accounts == s.accounts
  {
    s.(currCard := s.currCard + 1)
  }

  /** `prevCard`: the cursor moves back by one, without bound; nothing else changes. */
  function PrevCard(s: WalletState): (r: WalletState)
    ensures r.currCard == s.currCard - 1
    ensures r.recoveryPhrase == s.recoveryPhrase && r.accounts == s.accounts
  {
    s.(currCard := s.currCard - 1)
  }

  /**
   * `restoreWallet(mnemonic)`: the phrase becomes the words of the mnemonic,
   * and the account list is wiped and reseeded with account 0 of that
   * mnemonic. Nothing is validated, so every text restores.
   */
  function RestoreWallet(d: Derivation, s: WalletState, mnemonic: string): (r: WalletState)
    ensures Join(r.recoveryPhrase) == mnemonic
    ensures |r.recoveryPhrase| >= 1
    ensures forall i :: 0 <= i < |r.recoveryPhrase| ==> Space !in r.recoveryPhrase[i]
    ensures r.accounts == [d(mnemonic, 0)]
    ensures r.currCard == s.currCard
    ensures Contiguous(d, r)
  {
    JoinSplit(mnemonic);
    s.(recoveryPhrase := Split(mnemonic), accounts := [d(mnemonic, 0)])
  }

  /**
   * `createWallet()` with `mnemonic` the phrase `generateMnemonic` returned:
   * its state update is the one of `restoreWallet`, applied to a fresh mnemonic.
   */
  function CreateWallet(d: Derivation, s: WalletState, mnemonic: string): (r: WalletState)
    ensures Join(r.recoveryPhrase) == mnemonic
    ensures |r.recoveryPhrase| >= 1
    ensures forall i :: 0 <= i < |r.recoveryPhrase| ==> Space !in r.recoveryPhrase[i]
    ensures r.accounts == [d(mnemonic, 0)]
    ensures r.currCard == s.currCard
    ensures Contiguous(d, r)
  {
    RestoreWallet(d, s, mnemonic)
  }

  /**
   * `addAccount()`: appends the account at the next index, derived from the
   * joined phrase, and keeps every existing account.
   */
  function AddAccount(d: Derivation, s: WalletState): (r: WalletState)
    ensures |r.accounts| == |s.accounts| + 1
    ensures r.accounts[..|s.accounts|] == s.accounts
    ensures r.accounts[|s.accounts|] == d(Join(s.recoveryPhrase), |s.accounts|)
    ensures r.recoveryPhrase == s.recoveryPhrase && r.currCard == s.currCard
  {
    s.(accounts := s.accounts + [d(Join(s.recoveryPhrase), |s.accounts|)])
  }

  /**
   * The phrase `restoreWallet(mnemonic)` stores is exactly the word list
   * `mnemonic.split(" ")`, and so is the one `createWallet` stores.
   */
  lemma RestoredPhraseIsSplit(d: Derivation, s: WalletState, mnemonic: string)
    ensures RestoreWallet(d, s, mnemonic).recoveryPhrase == Split(mnemonic)
    ensures CreateWallet(d, s, mnemonic).recoveryPhrase == Split(mnemonic)
  {
    var r := RestoreWallet(d, s, mnemonic);
    JoinDeterminesWords(r.recoveryPhrase, mnemonic);
  }

  /** `addAccount` keeps the account list contiguous. */
  lemma AddAccountKeepsContiguous(d: Derivation, s: WalletState)
    requires Contiguous(d, s)
    ensures Contiguous(d, AddAccount(d, s))
  {
    var r := AddAccount(d, s);
    forall i | 0 <= i < |r.accounts|
      ensures r.accounts[i] == d(Join(r.recoveryPhrase), i)
    {
      if i < |s.accounts| {
        assert r.accounts[i] == r.accounts[..|s.accounts|][i];
      }
    }
  }

  /** `handleCreateWallet`: create, then move to the next card. */
  function HandleCreateWallet(d: Derivation, s: WalletState, mnemonic: string): (r: WalletState)
    ensures Join(r.recoveryPhrase) == mnemonic
    ensures |r.recoveryPhrase| >= 1
    ensures forall i :: 0 <= i < |r.recoveryPhrase| ==> Space !in r.recoveryPhrase[i]
    ensures r.accounts == [d(mnemonic, 0)]
    ensures r.currCard == s.currCard + 1
    ensures Contiguous(d, r)
  {
    NextCard(CreateWallet(d, s, mnemonic))
  }

  /** `handleRestoreWallet`: restore from the entered text, then move to the next card. */
  function HandleRestoreWallet(d: Derivation, s: WalletState, text: string): (r: WalletState)
    ensures Join(r.recoveryPhrase) == text
    ensures |r.recoveryPhrase| >= 1
    ensures forall i :: 0 <= i < |r.recoveryPhrase| ==> Space !in r.recoveryPhrase[i]
    ensures r.accounts == [d(text, 0)]
    ensures r.currCard == s.currCard + 1
    ensures Contiguous(d, r)
  {
    NextCard(RestoreWallet(d, s, text))
  }

  /**
   * `handleConfirm`: on a match the cursor advances by one; on a mismatch
   * (the alert) nothing changes. A match is exactly the displayed phrase.
   */
  function HandleConfirm(s: WalletState, enteredPhrase: string): (r: WalletState)
    ensures r == if enteredPhrase == Join(s.recoveryPhrase) then s.(currCard := s.currCard + 1) else s
  {
    if PhraseMatches(enteredPhrase, s.recoveryPhrase) then NextCard(s) else s
  }

  /** Moving the cursor forward then back, or back then forward, restores the state. */
  lemma CursorRoundTrip(d: Derivation, s: WalletState)
    ensures PrevCard(NextCard(s)) == s && NextCard(PrevCard(s)) == s
    ensures Contiguous(d, s) ==> Contiguous(d, NextCard(s)) && Contiguous(d, PrevCard(s))
  {
  }

  /** `n` calls of `addAccount`. */
  function AddAccounts(d: Derivation, s: WalletState, n: nat): WalletState
    decreases n
  {
    if n == 0 then s else AddAccount(d, AddAccounts(d, s, n - 1))
  }

  /**
   * `n` calls of `addAccount` extend the list by exactly `n` accounts and
   * touch neither the phrase, the cursor nor the accounts already there.
   */
  lemma {:induction false} AddAccountsExtend(d: Derivation, s: WalletState, n: nat)
    ensures var t := AddAccounts(d, s, n);
      && |t.accounts| == |s.accounts| + n
      && t.accounts[..|s.accounts|] == s.accounts
      && t.recoveryPhrase == s.recoveryPhrase
      && t.currCard == s.currCard
    decreases n
  {
    if n > 0 {
      AddAccountsExtend(d, s, n - 1);
      var t' := AddAccounts(d, s, n - 1);
      var t := AddAccount(d, t');
      calc {
        t.accounts[..|s.accounts|];
        t.accounts[..|t'.accounts|][..|s.accounts|];
        t'.accounts[..|s.accounts|];
      }
    }
  }

  /** `n` calls of `addAccount` on a contiguous list leave it contiguous. */
  lemma {:induction false} AddAccountsKeepContiguous(d: Derivation, s: WalletState, n: nat)
    requires Contiguous(d, s)
    ensures Contiguous(d, AddAccounts(d, s, n))
    decreases n
  {
    if n > 0 {
      AddAccountsKeepContiguous(d, s, n - 1);
      AddAccountKeepsContiguous(d, AddAccounts(d, s, n - 1));
    }
  }

  /**
   * Restoring (or creating) from `m` and adding `n` accounts leaves exactly
   * `n + 1` accounts, the one at position `i` derived from `m` at index `i`.
   */
  lemma AccountsAfterRestore(d: Derivation, s: WalletState, m: string, n: nat)
    ensures var t := AddAccounts(d, RestoreWallet(d, s, m), n);
      && |t.accounts| == n + 1
      && forall i :: 0 <= i <= n ==> t.accounts[i] == d(m, i)
    ensures var t := AddAccounts(d, CreateWallet(d, s, m), n);
      && |t.accounts| == n + 1
      && forall i :: 0 <= i <= n ==> t.accounts[i] == d(m, i)
  {
    var r := RestoreWallet(d, s, m);
    AddAccountsExtend(d, r, n);
    AddAccountsKeepContiguous(d, r, n);
  }

  /**
   * With no session yet (`[]`, `[]`), `addAccount` derives from the empty
   * mnemonic at index 0.
   */
  lemma AddAccountFromInitial(d: Derivation)
    ensures AddAccount(d, Initial).accounts == [d("", 0)]
  {
  }

  /**
   * Restoring from the displayed phrase of a freshly created wallet leaves
   * the session exactly as the creation did.
   */
  lemma RestoreDisplayedPhrase(d: Derivation, s: WalletState, m: string)
    ensures var t := CreateWallet(d, s, m);
      RestoreWallet(d, t, Join(t.recoveryPhrase)) == t
  {
    var t := CreateWallet(d, s, m);
    assert Join(t.recoveryPhrase) == m;
  }

  /** Entering exactly the displayed phrase always passes confirmation. */
  lemma DisplayedPhraseConfirms(s: WalletState)
    ensures HandleConfirm(s, Join(s.recoveryPhrase)) == NextCard(s)
  {
  }

  /** The operations a user can trigger, one atomic step each. */
  datatype Op =
    | Create(mnemonic: string)
    | Restore(mnemonic: string)
    | Add
    | Next
    | Prev
    | Confirm(enteredPhrase: string)

  function Step(d: Derivation, s: WalletState, op: Op): WalletState
  {
    match op
    case Create(m) => CreateWallet(d, s, m)
    case Restore(m) => RestoreWallet(d, s, m)
    case Add => AddAccount(d, s)
    case Next => NextCard(s)
    case Prev => PrevCard(s)
    case Confirm(e) => HandleConfirm(s, e)
  }

  function Run(d: Derivation, s: WalletState, ops: seq<Op>): WalletState
    decreases |ops|
  {
    if |ops| == 0 then s else Run(d, Step(d, s, ops[0]), ops[1..])
  }

  /**
   * Contiguity holds in every state the session can reach from its initial
   * state, whatever the order of the operations.
   */
  lemma {:induction false} RunKeepsContiguous(d: Derivation, s: WalletState, ops: seq<Op>)
    requires Contiguous(d, s)
    ensures Contiguous(d, Run(d, s, ops))
    decreases |ops|
  {
    if |ops| > 0 {
      var t := Step(d, s, ops[0]);
      if ops[0].Add? {
        AddAccountKeepsContiguous(d, s);
      }
      RunKeepsContiguous(d, t, ops[1..]);
    }
  }

  lemma ReachableContiguous(d: Derivation, ops: seq<Op>)
    ensures Contiguous(d, Run(d, Initial, ops))
  {
    RunKeepsContiguous(d, Initial, ops);
  }

  /**
   * The onboarding flow from a new provider: create, "I've saved it",
   * confirm with the displayed phrase. The cursor walks the `cardsArr`
   * positions of the first, display, confirm and details cards, and the
   * session holds account 0 of the new mnemonic.
   */
  lemma OnboardingFlow(d: Derivation, m: string)
    ensures var s1 := HandleCreateWallet(d, Initial, m);
      var s2 := NextCard(s1);
      var s3 := HandleConfirm(s2, Join(s2.recoveryPhrase));
      && CardAt(Initial.currCard) == Some(FirstCard)
      && CardAt(s1.currCard) == Some(DisplayRecoveryPhraseCard)
      && CardAt(s2.currCard) == Some(ConfirmRecoveryPhraseCard)
      && CardAt(s3.currCard) == Some(WalletDetailsCard)
      && s3.accounts == [d(m, 0)]
      && Join(s3.recoveryPhrase) == m
  {
    var s1 := HandleCreateWallet(d, Initial, m);
    var s2 := NextCard(s1);
    var s3 := HandleConfirm(s2, Join(s2.recoveryPhrase));
    assert s3 == NextCard(s2);
    assert s3.currCard == 3;
  }

  /**
   * Restoring with the cursor at the restore card's position moves it one
   * past the last entry of `cardsArr`.
   */
  lemma RestoreLeavesCardList(d: Derivation, s: WalletState, text: string)
    requires CardAt(s.currCard) == Some(RestoreWalletCard)
    ensures CardAt(HandleRestoreWallet(d, s, text).currCard).None?
  {
  }
}
