# Simple wallet session, modelled in Dafny

This project models the wallet session of a browser Solana wallet. The session is
held by `WalletProvider` in `src/context/WalletContext.tsx` and has three parts:
the recovery phrase as a list of words, the list of derived accounts, and the
onboarding cursor `currCard`. It offers five operations:

- `createWallet` and `restoreWallet` replace the phrase and reseed the account list with account 0.
- `addAccount` appends the account at the next index.
- `nextCard` and `prevCard` move the cursor.

The onboarding handlers of `src/components/Cards.tsx` (`handleCreateWallet`,
`handleConfirm`, `handleRestoreWallet`) compose these operations. The step list
`cardsArr` fixes the order of the onboarding cards.

`generateAccount` builds the hardened path `m/44'/501'/{index}'/0'` and hands the
seed and the path to foreign libraries:

- BIP-39 mnemonic to seed;
- SLIP-0010 ed25519 child derivation;
- the ed25519 keypair from a seed (section 5.1.5 of RFC 8032);
- base58.

It then renders the secret key as hex. Those libraries are a record of
deterministic functions (`Accounts.Crypto`) that the session receives. The
path text, the decimal rendering of the index, the hex renderings and the
`split(" ")` / `join(" ")` round trip are modelled concretely.

Files:

- `wrappers.dfy`: `Option`.
- `text.dfy`: JavaScript `split(" ")` and `join(" ")`, and their two round trips.
- `encoding.dfy`: decimal rendering of an index and `Buffer.toString("hex")`, each with its inverse.
- `accounts.dfy`: the derivation path, `generateAccount`, and the lookup of an account by public key.
- `onboarding.dfy`: the step list and the confirmation test.
- `wallet_spec.dfy`: the session as a value, with one function per operation and handler, and the lemmas about them.
- `wallet_context.dfy`: the class `WalletSession`. Its fields are the session state. Its methods are proved to perform the `WalletSpec` transitions and to keep the account list contiguous.

The central invariant is `WalletSpec.Contiguous`: account `i` is always
`generateAccount(recoveryPhrase.join(" "), i)`. It holds because
`join(split(m, " "), " ") == m` for every text `m` (`Text.JoinSplit`). That includes
empty pieces, and `"".split(" ") == [""]`. So after `restoreWallet(m)`, every
`addAccount` derives from exactly `m` again. The same fact makes the
confirmation test of `handleConfirm` a plain string comparison with the
displayed phrase.

`cardsArr` lays the onboarding out as five steps that the cursor is meant to
select by position. The model states this intended selection (`Onboarding.CardAt`).
In the intended selection, `handleRestoreWallet` at the restore card's position
(4) moves the cursor to 5, where `cardsArr` has no entry
(`WalletSpec.RestoreLeavesCardList`). In the application as it stands, no enabled
control moves the cursor onto the restore card, and the page does not index
`cardsArr` at all.

## Model

| member | source | states |
|---|---|---|
| `Text.Split` | src/context/WalletContext.tsx:56 | `split(" ")` always yields at least one piece, and no piece contains a space |
| `Text.Join` | src/context/WalletContext.tsx:68 | `join(" ")` of no pieces is `""`; otherwise the text starts with the first piece and its length is the pieces' lengths plus one space between each pair of neighbours |
| `Text.JoinSplit` | src/context/WalletContext.tsx:62-68 | joining the pieces of `split(" ")` with `" "` gives back the original text, for every text including `""` and texts with empty pieces |
| `Text.SplitJoin` | src/components/Cards.tsx:56 | joining one or more space-free words and splitting again gives back exactly those words |
| `Text.JoinDeterminesWords` | src/context/WalletContext.tsx:56 | a non-empty list of space-free words that joins to a text is exactly the `split(" ")` of that text |
| `Encoding.Decimal` | src/context/WalletContext.tsx:45 | the `${index}` text is non-empty, all decimal digits, and has no leading zero unless it is `"0"` |
| `Encoding.ParseDecimalOfDecimal` | src/context/WalletContext.tsx:45 | reading the decimal text back as a number gives the index |
| `Encoding.DecimalInjective` | src/context/WalletContext.tsx:45 | distinct indices have distinct decimal texts |
| `Encoding.Hex` | src/context/WalletContext.tsx:49 | `toString("hex")` writes exactly two lowercase hexadecimal digits per byte |
| `Encoding.UnHexOfHex` | src/context/WalletContext.tsx:49 | decoding the hex text gives back exactly the bytes, so the rendering loses nothing |
| `Accounts.DerivationPath` | src/context/WalletContext.tsx:45 | the path is the fixed prefix `m/44'/501'/`, then the decimal index, then the fixed suffix `'/0'` |
| `Accounts.DerivationPathLevels` | src/context/WalletContext.tsx:45 | the path template is the BIP-44 path purpose 44, coin type 501, account `index`, change 0, with every level hardened |
| `Accounts.DerivationPathInjective` | src/context/WalletContext.tsx:45 | distinct account indices give distinct derivation paths |
| `Accounts.SeedSlice` | src/context/WalletContext.tsx:46 | `slice(0, 32)` keeps a prefix of the derived key, of length 32 or the whole key if shorter |
| `Accounts.AccountKeypair` | src/context/WalletContext.tsx:44-46 | the keypair is `fromSeed` of the first 32 bytes of the key derived at this index's path from the hex text of the mnemonic's seed, or of the whole key if it is shorter |
| `Accounts.GenerateAccount` | src/context/WalletContext.tsx:43-52 | the public key is the base58 text of the keypair's public key; the private key has two characters per secret-key byte and decodes back to exactly the secret key |
| `Accounts.PrivateKeyText` | src/context/WalletContext.tsx:49 | the private key is lowercase hex throughout, and a 64-byte secret key gives 128 characters |
| `Accounts.GenerateAccountDependsOnSeed` | src/context/WalletContext.tsx:43-52 | the account depends on the mnemonic only through its seed, and equal inputs give identical accounts |
| `Accounts.FindByPublicKey` | src/components/WalletDetailsCard.tsx:28 | gives the position of the first account with the given public key, whose entry `find` returns, or nothing when no account has it |
| `Onboarding.CardAt` | src/components/Cards.tsx:200-206 | the cursor selects a card exactly when it is in 0..4, and the card it selects sits at that position |
| `Onboarding.CardsArrOrder` | src/components/Cards.tsx:200-206 | the step list has five cards, in the order create, display phrase, confirm, details, restore, each card exactly once |
| `Onboarding.PhraseMatches` | src/components/Cards.tsx:74 | the split-then-join comparison passes exactly when the entered text equals the displayed phrase |
| `WalletSpec.NextCard` | src/context/WalletContext.tsx:39 | the cursor moves forward by one; the phrase and the accounts are unchanged |
| `WalletSpec.PrevCard` | src/context/WalletContext.tsx:40 | the cursor moves back by one; the phrase and the accounts are unchanged |
| `WalletSpec.CreateWallet` | src/context/WalletContext.tsx:54-59 | the phrase is a non-empty list of space-free words that joins to the new mnemonic; the accounts are exactly account 0 of it, and prior accounts are discarded; the cursor is unchanged; the list is contiguous |
| `WalletSpec.RestoreWallet` | src/context/WalletContext.tsx:61-65 | with no validation of the text, the phrase is a non-empty list of space-free words that joins to the text; there is exactly one account, account 0 of the text; the cursor is unchanged; the list is contiguous |
| `WalletSpec.RestoredPhraseIsSplit` | src/context/WalletContext.tsx:56-62 | the phrase stored by `restoreWallet(m)` and by `createWallet` with mnemonic `m` is exactly the word list `m.split(" ")` |
| `WalletSpec.AddAccount` | src/context/WalletContext.tsx:67-70 | exactly one account is appended, derived from the joined phrase at index `accounts.length`; existing accounts, phrase and cursor are unchanged |
| `WalletSpec.AddAccountKeepsContiguous` | src/context/WalletContext.tsx:67-70 | `addAccount` keeps the account list contiguous |
| `WalletSpec.AddAccountFromInitial` | src/context/WalletContext.tsx:36-37 | with no session yet, `addAccount` derives from the empty mnemonic at index 0 |
| `WalletSpec.AddAccountsExtend` | src/context/WalletContext.tsx:67-70 | `n` calls of `addAccount` add exactly `n` accounts and leave the earlier accounts, the phrase and the cursor unchanged |
| `WalletSpec.AddAccountsKeepContiguous` | src/context/WalletContext.tsx:67-70 | `n` calls of `addAccount` keep a contiguous list contiguous |
| `WalletSpec.AccountsAfterRestore` | src/context/WalletContext.tsx:61-70 | after restoring (or creating) from `m` and `n` calls of `addAccount`, there are `n + 1` accounts, and account `i` is `generateAccount(m, i)` |
| `WalletSpec.RestoreDisplayedPhrase` | src/context/WalletContext.tsx:54-65 | restoring from the displayed phrase of a freshly created wallet reproduces that session exactly, including account 0 |
| `WalletSpec.CursorRoundTrip` | src/context/WalletContext.tsx:39-40 | `prevCard` undoes `nextCard` and vice versa; moving the cursor keeps the accounts contiguous |
| `WalletSpec.HandleCreateWallet` | src/components/Cards.tsx:12-15 | exactly one account, account 0 of the new mnemonic; the phrase is a non-empty list of space-free words that joins to the mnemonic; the cursor is one past where it was |
| `WalletSpec.HandleConfirm` | src/components/Cards.tsx:73-79 | on a match, which is exactly the displayed phrase, only the cursor moves, by one; on a mismatch nothing changes |
| `WalletSpec.DisplayedPhraseConfirms` | src/components/Cards.tsx:73-79 | entering exactly the displayed phrase always passes the confirmation |
| `WalletSpec.HandleRestoreWallet` | src/components/Cards.tsx:168-171 | the phrase is a non-empty list of space-free words that joins to the entered text; there is exactly one account, account 0 of that text; the cursor is one past where it was |
| `WalletSpec.RunKeepsContiguous` | src/context/WalletContext.tsx:39-70 | every sequence of session operations keeps a contiguous account list contiguous |
| `WalletSpec.ReachableContiguous` | src/context/WalletContext.tsx:31-37 | every state reachable from a new provider has a contiguous account list |
| `WalletSpec.OnboardingFlow` | src/components/Cards.tsx:12-79 | create, then "I've saved it", then confirming with the displayed phrase walk the first, display, confirm and details cards, and leave account 0 of the new mnemonic |
| `WalletSpec.RestoreLeavesCardList` | src/components/Cards.tsx:168-171 | restoring from the restore card moves the cursor past the last entry of `cardsArr` |
| `WalletContext.WalletSession.constructor` | src/context/WalletContext.tsx:31-37 | a new provider has no phrase, no accounts and the cursor at 0; its list is contiguous |
| `WalletContext.WalletSession.NextCard` | src/context/WalletContext.tsx:39 | the cursor moves forward by one, and nothing else changes |
| `WalletContext.WalletSession.PrevCard` | src/context/WalletContext.tsx:40 | the cursor moves back by one, and nothing else changes |
| `WalletContext.WalletSession.CreateWallet` | src/context/WalletContext.tsx:54-59 | performs the `WalletSpec.CreateWallet` transition in place and leaves the list contiguous |
| `WalletContext.WalletSession.RestoreWallet` | src/context/WalletContext.tsx:61-65 | performs the `WalletSpec.RestoreWallet` transition in place and leaves the list contiguous |
| `WalletContext.WalletSession.AddAccount` | src/context/WalletContext.tsx:67-70 | appends `generateAccount(join(phrase), old length)` to the account list in place and keeps it contiguous |
| `WalletContext.WalletSession.HandleCreateWallet` | src/components/Cards.tsx:12-15 | create, then next card, in place |
| `WalletContext.WalletSession.HandleConfirm` | src/components/Cards.tsx:73-79 | reports a match exactly when the entered text is the displayed phrase; it advances the cursor by one on a match and changes nothing otherwise |
| `WalletContext.WalletSession.HandleRestoreWallet` | src/components/Cards.tsx:168-171 | restore, then next card, in place; afterwards the joined phrase is the entered text and there is exactly one account |

## Left out

- Cryptography: the insides of `mnemonicToSeedSync`, `derivePath`, `Keypair.fromSeed` and `toBase58` are not modelled. Each is a field of `Accounts.Crypto`, a deterministic function of its inputs. Exceptions these libraries may throw are not modelled. `derivePath` returns only the key, because the chain code is unused.
- `generateMnemonic` is randomness. The mnemonic it returns is a parameter of `CreateWallet` and `HandleCreateWallet`.
- React machinery is not modelled: `useState` batching, the closure over `accounts` in `addAccount` that can go stale, and the provider check in `useWallet`. Each operation and handler is one atomic step.
- `walletType`, `password` and `confirmPassword` are plain setters with no logic.
- The mismatch `alert` of `handleConfirm` is I/O. `HandleConfirm` reports it as `matched == false`.
- `Encoding.Decimal` models `${index}` for non-negative integers. JavaScript writes these in plain decimal below 10^21, and an account index, being a list length, always is. Exponent notation is not modelled.
- Balance, price, transfer and token queries are network code and are not modelled. The same goes for the floating-point amount handling around them and for all rendering, including `src/app/page.tsx`.
- There is no second chain (coin type 60), no index-range rejection, no duplicate-index error and no mnemonic checksum validation. None of these exists in the code, which derives only for coin type 501 and checks nothing. The model follows the code.
- A failed restore does not leave the session untouched, because the code has no failure path. `restoreWallet` accepts any text and always leaves one account. The model follows the code.
- `Onboarding.CardAt`, `WalletSpec.OnboardingFlow` and `WalletSpec.RestoreLeavesCardList` describe the intended selection of a step from `cardsArr` by the cursor. They do not describe what the page renders: `src/app/page.tsx` has the `cardsArr[currCard]` lookup commented out and renders a `currentCard` value that the session does not provide. The controls that would reach the restore card are commented out too.
- `Send.tsx` base58-decodes the hex private key. That file is not part of this model.
