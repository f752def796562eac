# Verified model of the wallet's stateful core

This project models, in Dafny, the parts of the Komodo desktop wallet that keep state across calls, and
proves what they maintain over whole runs:

- **Address book** (`AddressBookModel`, `AddressBookManager`, `AddressBookRefinement`, `AddressBookAges`): the
  manager's array of contacts, each with an array of wallet entries, searched from the front. As long as names stay
  unique it refines a map of nested maps; with shared names every name is a first-in first-out queue of its own; and
  in every run, renamings included, an operation on a name acts on the oldest contact then bearing it.
- **Settings** (`AppConfig`, `AppConfigRuns`): the settings record and the JSON file it is written through to.
- **Raw coins** (`RawCoins`, `RawCoinsSchema`, `RawCoinsRegistry`): the decoder and encoder of coin entries, what
  they mean key by key, and the registry filled from a file.
- **Coin selection** (`CoinSelection`, `FeeTickers`, `CoinsReset`): which coins are sent to be enabled or
  disabled, the fee coins they drag along, and the merge done when the coins file is reset.
- **Lifecycle** (`Lifecycle`, `Application`, `LifecycleRuns`, `PortfolioRuns`, `LifecycleCalls`): ticks,
  disconnection, exit and event callbacks as atomic steps over two queues, the heap copies of ticker names, flags and
  subscriptions.
- **Interleaving** (`Interleaving`, `InterleavingRefinement`): the portfolio queue again, with callbacks on other
  threads and every single access to shared state as a move of its own; runs of atomic steps are its uninterrupted runs.

Objects that the program updates in place are classes whose methods are proved against step functions on
values (`Apply`, `Next`); theorems about all runs are lemmas over those step functions. Laws such as
`RawCoinsSchema.DecodesExactly`, `CoinSelection.DisabledExactly` and `LifecycleCalls.RunAnswers` say what the functions
compute without their help, from the inputs alone. An exception is a
`Failure`, `Fail`, `Threw` or `None` result, never a precondition. Undefined behaviour (erasing a past-the-end
iterator, indexing or popping an empty vector) is a result of its own in the step functions and a precondition
of the methods. `JsonValues` holds JSON values and their typed reads; `Sequences` and `Wrappers` are shared helpers.

## What turned out not to hold as documented

- Removing a wallet kind shifts the kept entries forward and then erases *one* slot. That filters the kind out
  exactly when the contact has one entry of it (`AddressBookManager.ShiftAndEraseOne`), which the other modifiers
  guarantee (`AddressBookModel.RunValid`); with two entries the second one survives its own removal
  (`SecondEntrySurvives`). Removing a kind that is absent erases the past-the-end iterator.
- `change_currency` assigns the currency before the lookup of its sign can throw, so a call makes memory and file
  disagree exactly when it chooses another currency without a known sign (`AppConfigRuns.ApplyAgrees`, `RunAgrees`; a
  concrete case is `UnknownSignDisagrees`). Any later write repairs that: after a run they agree exactly when the
  currency last chosen is the one last written (`AgreesAfterRun`).
- `change_fiat` leaves the old fiat sign in place (`AppConfigRuns.StaleFiatSign`): after a run the sign is right
  exactly when the current fiat has the same sign as the last fiat chosen as currency (`FiatSignedAfter`).
- The recommended fiats are first-in first-out: choosing one again does not refresh it (`SurvivesExactly`).
- Encoding a decoded coin entry gives back its known keys unchanged exactly when its numbers and address format
  were canonical (`RawCoins.EncodeDecodeExactly`); a fractional number of decimals is truncated (`DecimalsTruncated`).
- The limit on enabled coins is checked before fee coins are added, so an accepted request can exceed it
  (`CoinSelection.LimitKeptExactly`, `LimitExceeded`). And one pass covers all fees exactly when each fee coin it
  adds pays its own fees or pays them in a coin that is requested, added as well, enabled, active or unknown
  (`SinglePassClosesExactly`); a concrete request where it does not is `SinglePassMayMissAGrandparent`.
- With callbacks on other threads, clearing the queues before removing the handlers does not isolate sessions;
  it does exactly when nothing was queued in between and no callback was in flight (`Interleaving.IsolatedExactly`).
  `DisconnectMayNotIsolate` gives a sequence of moves in which a ticker of one session is drained in the next.

## Model

| member | source | states |
|---|---|---|
| AddressBookModel.ChangedValid | src/core/atomicdex/managers/addressbook.manager.cpp:171-243 | every per-contact modifier keeps wallet kinds distinct, entries non-empty and categories distinct, and keeps the name |
| AddressBookModel.RunValid | src/core/atomicdex/managers/addressbook.manager.cpp:133-244 | the representation invariant holds after every run of modifiers, shared names included |
| AddressBookModel.WithoutKindIsErase | src/core/atomicdex/managers/addressbook.manager.cpp:184-192 | with one entry per kind, filtering a kind out is erasing one slot |
| AddressBookManager.RemoveIf | src/core/atomicdex/managers/addressbook.manager.cpp:188-191 | the in-place shift loop leaves the entries of other kinds, in order, at the front and returns where they end; behind them, entries of the kind stay and moved ones are empty |
| AddressBookManager.ShiftAndEraseOne | src/core/atomicdex/managers/addressbook.manager.cpp:184-192 | shifting and erasing one slot leaves the kept entries and whatever stands behind the erased slot; that is filtering the kind out if and only if the array held exactly one entry of it |
| AddressBookManager.SecondEntrySurvives | src/core/atomicdex/managers/addressbook.manager.cpp:184-192 | removing a kind that has two entries leaves the second one in place |
| AddressBookManager.AddressBook.EraseWalletEntry | src/core/atomicdex/managers/addressbook.manager.cpp:184-192 | on a contact with distinct kinds the removal is the filter, at that position only |
| AddressBookManager.AddressBook.FindContact | src/core/atomicdex/managers/addressbook.manager.cpp:65-75 | the search stops at the first contact of the name, or at the end |
| AddressBookManager.AddressBook.GetContact | src/core/atomicdex/managers/addressbook.manager.cpp:65-75 | the oldest contact of the name, whose meaning is the directory's entry; throws exactly when the directory has none |
| AddressBookManager.AddressBook.GetWalletInfo | src/core/atomicdex/managers/addressbook.manager.cpp:92-102 | the directory's entry for the kind, or the exception for a missing contact or kind |
| AddressBookManager.AddressBook.GetWalletInfoAddress | src/core/atomicdex/managers/addressbook.manager.cpp:109-112 | the nested map's address, or the exception for the first missing level |
| AddressBookManager.AddressBook.HasContact | src/core/atomicdex/managers/addressbook.manager.cpp:254-264 | true exactly for the directory's names |
| AddressBookManager.AddressBook.HasWalletInfo | src/core/atomicdex/managers/addressbook.manager.cpp:266-274 | true exactly for the kinds in the directory's card |
| AddressBookManager.AddressBook.HasWalletKey | src/core/atomicdex/managers/addressbook.manager.cpp:276-285 | true exactly for the keys in the nested map |
| AddressBookManager.AddressBook.HasCategory | src/core/atomicdex/managers/addressbook.manager.cpp:287-299 | true exactly for the card's categories |
| AddressBookManager.AddressBook.AddContact | src/core/atomicdex/managers/addressbook.manager.cpp:133-145 | appends a blank contact, whether or not the name exists, and keeps the invariant |
| AddressBookManager.AddressBook.RemoveContact | src/core/atomicdex/managers/addressbook.manager.cpp:147-157 | erases the first contact of the name and nothing else; does nothing for an unknown name |
| AddressBookManager.AddressBook.RemoveAllContacts | src/core/atomicdex/managers/addressbook.manager.cpp:159-162 | leaves an empty book |
| AddressBookManager.AddressBook.ChangeContactName | src/core/atomicdex/managers/addressbook.manager.cpp:164-169 | renames the first contact of the name at its position; throws for an unknown name, leaving the book as it was |
| AddressBookManager.AddressBook.SetContactWalletInfo | src/core/atomicdex/managers/addressbook.manager.cpp:171-182 | sets the key in the kind's entry, appending the entry if there is none; throws for an unknown name |
| AddressBookManager.AddressBook.RemoveContactWalletInfo | src/core/atomicdex/managers/addressbook.manager.cpp:184-192 | filters the kind, which must be present, out of the first contact of the name; throws for an unknown name |
| AddressBookManager.AddressBook.RemoveContactWalletKey | src/core/atomicdex/managers/addressbook.manager.cpp:194-203 | removes the key, and the entry when it was the last; throws for an unknown name or kind; the internal call's demand is met |
| AddressBookManager.AddressBook.RemoveEveryWalletInfo | src/core/atomicdex/managers/addressbook.manager.cpp:205-210 | empties the wallet entries of the first contact of the name; throws for an unknown name |
| AddressBookManager.AddressBook.AddContactCategory | src/core/atomicdex/managers/addressbook.manager.cpp:212-222 | appends the category unless present, and tells whether it was new; throws for an unknown name |
| AddressBookManager.AddressBook.RemoveContactCategory | src/core/atomicdex/managers/addressbook.manager.cpp:224-236 | erases the first occurrence of the category, if any; throws for an unknown name |
| AddressBookManager.AddressBook.ResetContactCategories | src/core/atomicdex/managers/addressbook.manager.cpp:238-243 | empties the categories; throws for an unknown name |
| AddressBookRefinement.ChangeRefines | src/core/atomicdex/managers/addressbook.manager.cpp:171-243 | each per-contact modifier performs the matching nested-map update or fails for the same reason |
| AddressBookRefinement.StepRefines | src/core/atomicdex/managers/addressbook.manager.cpp:133-244 | each modifier introducing only fresh names performs the matching directory update and keeps names unique |
| AddressBookRefinement.RunRefines | src/core/atomicdex/managers/addressbook.manager.cpp:133-244 | over every such run, exceptions included, the arrays refine the nested maps |
| AddressBookRefinement.RunFromEmptyRefines | src/core/atomicdex/managers/addressbook.manager.cpp:27-29 | in particular from the empty book of a new manager |
| AddressBookRefinement.OtherKindsUntouched | src/core/atomicdex/managers/addressbook.manager.cpp:171-203 | a modifier about one wallet kind leaves the other entries, their order and the categories as they were |
| AddressBookRefinement.CategoryRemovedInOrder | src/core/atomicdex/managers/addressbook.manager.cpp:224-236 | removing a category leaves exactly the others, in order |
| AddressBookRefinement.EntriesInOrder | src/core/atomicdex/managers/addressbook.manager.cpp:171-243 | new wallet entries and categories come last, changed ones stay in place and removed ones leave the others in order |
| AddressBookRefinement.ContactIs | src/core/atomicdex/managers/addressbook.manager.cpp:171-243 | that order and the nested map determine the whole contact |
| AddressBookRefinement.StepIsQueueStep | src/core/atomicdex/managers/addressbook.manager.cpp:133-244 | unless it renames from or to the name, a modifier acts on the contacts of a name as on a queue of its own, of which lookups, edits and removal see the head only |
| AddressBookRefinement.RunIsQueueRun | src/core/atomicdex/managers/addressbook.manager.cpp:133-244 | over whole runs that do not rename from or to it, a name's queue depends on the modifiers naming it alone; runs that do are AddressBookAges.RunByAge |
| AddressBookRefinement.RenamePops | src/core/atomicdex/managers/addressbook.manager.cpp:164-169 | renaming takes the oldest bearer out of the queue of its old name |
| AddressBookRefinement.RenameInserts | src/core/atomicdex/managers/addressbook.manager.cpp:164-169 | and puts it into the queue of its new name behind exactly the contacts standing before it; other queues stay |
| AddressBookAges.StepByAge | src/core/atomicdex/managers/addressbook.manager.cpp:133-244 | each modifier, renaming included, acts on the oldest contact bearing the name at that moment, or fails for want of one |
| AddressBookAges.RunByAge | src/core/atomicdex/managers/addressbook.manager.cpp:133-244 | over every run the array is the numbered contacts in order of age, shared names and renamings included |
| AddressBookAges.FindsOldest | src/core/atomicdex/managers/addressbook.manager.cpp:65-75 | after any run of a new book, searching a name finds the oldest contact bearing it, and fails only when there is none |
| AddressBookRefinement.SetThenRemoveAddress | src/core/atomicdex/managers/addressbook.manager.cpp:171-203 | setting an absent key and removing it restores the whole array, whether or not the entry had to be made |
| AddressBookRefinement.AddThenRemoveCategory | src/core/atomicdex/managers/addressbook.manager.cpp:212-236 | a category that was added is taken away again by removing it |
| AddressBookRefinement.AddThenRemoveContact | src/core/atomicdex/managers/addressbook.manager.cpp:133-157 | adding and removing a name restores the book if and only if everything from its oldest bearer on is an untouched contact of that name |
| AppConfigRuns.DecodeUpgraded | src/core/atomicdex/config/app.cfg.cpp:33-106 | the written file decodes to the settings if and only if it already held their available fiats, which are never written |
| AppConfigRuns.DecodesExactly | src/core/atomicdex/config/app.cfg.cpp:67-106 | a file is read as given settings if and only if it holds each of them under its key, where missing flags stand for true, true and false |
| AppConfigRuns.UpgradedLookups | src/core/atomicdex/config/app.cfg.cpp:43-54 | every written key holds its own setting |
| AppConfigRuns.ApplyAgrees | src/core/atomicdex/config/app.cfg.cpp:108-226 | a call keeps memory and file in agreement if and only if it does not choose another currency without a known sign |
| AppConfigRuns.UnknownSignDisagrees | src/core/atomicdex/config/app.cfg.cpp:179-206 | a concrete call after which they disagree |
| AppConfigRuns.RunAgreesButCurrency | src/core/atomicdex/config/app.cfg.cpp:108-214 | even past exceptions, only the current currency can be ahead of the file |
| AppConfigRuns.RunAgrees | src/core/atomicdex/config/app.cfg.cpp:108-214 | they agree after every prefix of a run if and only if no call of the run is a breaking one |
| AppConfigRuns.AgreesAfterRun | src/core/atomicdex/config/app.cfg.cpp:108-214 | after a run they agree if and only if the currency last chosen is the one last written, told from the calls alone |
| AppConfigRuns.RunKeepsOtherKeys | src/core/atomicdex/config/app.cfg.cpp:43-54 | keys outside the eleven written ones are never altered in any run |
| AppConfigRuns.RestartRestores | src/core/atomicdex/config/app.cfg.cpp:148-171 | loading the file after a run gives back the state of the run |
| AppConfigRuns.RunDefined | src/core/atomicdex/config/app.cfg.cpp:179-214 | from non-empty vectors no run indexes or pops an empty one, and lengths, available fiats and signs stay |
| AppConfigRuns.RecommendedLaw | src/core/atomicdex/config/app.cfg.cpp:192-203 | after every run the recommended fiats are the first n of the promotions, newest first, followed by the initial list |
| AppConfigRuns.RecommendedValid | src/core/atomicdex/config/app.cfg.cpp:173-206 | they stay distinct and among the available fiats |
| AppConfigRuns.SurvivesExactly | src/core/atomicdex/config/app.cfg.cpp:192-203 | an entry at position p moves back by one per promotion and is gone after exactly n - p of them |
| AppConfigRuns.LastChoiceWins | src/core/atomicdex/config/app.cfg.cpp:108-206 | after a run every flag and the currency are as last asked for, whether calls wrote, skipped the write or threw |
| AppConfigRuns.CurrencySignedStep | src/core/atomicdex/config/app.cfg.cpp:179-183 | the currency's sign stays its own if and only if the call does not choose a currency without a known sign |
| AppConfigRuns.FiatSignedStep | src/core/atomicdex/config/app.cfg.cpp:208-214 | the fiat's sign stays its own except when the fiat alone changes to one with another sign |
| AppConfigRuns.StaleFiatSign | src/core/atomicdex/config/app.cfg.cpp:208-214 | a concrete call after which the sign shown is that of the previous fiat |
| AppConfigRuns.RunShowsLast | src/core/atomicdex/config/app.cfg.cpp:179-214 | after every run currency, fiat and both signs are those of the last call choosing them, past calls that threw or left a sign behind |
| AppConfigRuns.CurrencySignedAfter | src/core/atomicdex/config/app.cfg.cpp:179-206 | after a run the currency shows its own sign if and only if the last one chosen has a known sign |
| AppConfigRuns.FiatSignedAfter | src/core/atomicdex/config/app.cfg.cpp:179-214 | after a run the fiat shows its own sign if and only if that equals the sign of the last fiat chosen as currency |
| AppConfigRuns.FiatHeadsCurrencies | src/core/atomicdex/config/app.cfg.cpp:186-214 | the current fiat heads the possible currencies over every run; the other entries never change |
| AppConfig.Settings.LoadCfg | src/core/atomicdex/config/app.cfg.cpp:148-171 | reads the file, or the shipped one after putting it in place, where it stays even when reading throws; throws exactly when it does not decode |
| AppConfig.Settings.UpgradeCfg | src/core/atomicdex/config/app.cfg.cpp:33-62 | rewrites the eleven keys in the stored file and nothing else |
| AppConfig.Settings.ChangeCurrencyTo | src/core/atomicdex/config/app.cfg.cpp:179-206 | currency and sign change, a fiat is also selected, and the file is rewritten; throws exactly when the table lacks the key of the sign ("BTC_ALT" for bitcoin on Linux, otherwise the currency), leaving the assigned currency in memory and the file as it was |
| AppConfig.Settings.RetrieveSign | src/core/atomicdex/config/app.cfg.cpp:216-226 | the sign found under "BTC_ALT" for bitcoin on Linux and under the currency itself otherwise |
| AppConfig.SignShown | src/core/atomicdex/config/app.cfg.cpp:179-183 | choosing a currency throws if and only if that key is missing, and otherwise shows the sign found there, whatever stands under "BTC" |
| AppConfig.UndefinedExactly | src/core/atomicdex/config/app.cfg.cpp:186-214 | the calls that index or pop an empty vector |
| AppConfig.Settings.SelectFiat | src/core/atomicdex/config/app.cfg.cpp:186-204 | a chosen fiat becomes current, heads the possible currencies and is recommended |
| AppConfig.Settings.ChangeFiatTo | src/core/atomicdex/config/app.cfg.cpp:208-214 | the fiat becomes current and heads the possible currencies, and the file is rewritten |
| AppConfig.Settings.ChangeNotificationStatus | src/core/atomicdex/config/app.cfg.cpp:108-116 | only the notification flag changes; the file is rewritten exactly on a change |
| AppConfig.Settings.ChangePostorderStatus | src/core/atomicdex/config/app.cfg.cpp:118-126 | only the post-order flag changes; the file is rewritten exactly on a change |
| AppConfig.Settings.ChangeSpamfilterStatus | src/core/atomicdex/config/app.cfg.cpp:128-136 | only the spam filter flag changes; the file is rewritten exactly on a change |
| AppConfig.Settings.ChangeStaticRpcpassStatus | src/core/atomicdex/config/app.cfg.cpp:138-146 | only the static password flag changes; the file is rewritten exactly on a change |
| RawCoins.KeysDistinct | src/core/atomicdex/config/raw.kdf.coins.cfg.hpp:133-215 | every member has a JSON key of its own, different from those of the mandatory members |
| RawCoinsSchema.DecodesExactly | src/core/atomicdex/config/raw.kdf.coins.cfg.hpp:133-169 | a document decodes if and only if "coin" is a string, "protocol" is there and each of the thirty optional keys is missing, null or of its type; each member then holds what its key says |
| RawCoinsSchema.EncodesExactly | src/core/atomicdex/config/raw.kdf.coins.cfg.hpp:171-215 | an entry is written under exactly the keys of the members it has, each value spelt by its type |
| RawCoins.WriteRead | src/core/atomicdex/config/raw.kdf.coins.cfg.hpp:22-39 | reading and writing a value gives it back if and only if it is canonical; the result always is |
| RawCoins.DecodeEncode | src/core/atomicdex/config/raw.kdf.coins.cfg.hpp:133-215 | every coin entry is read back as it was written |
| RawCoins.EncodeDecode | src/core/atomicdex/config/raw.kdf.coins.cfg.hpp:133-215 | writing a decoded object strips unknown keys and null optional members and normalises numbers |
| RawCoins.EncodeDecodeExactly | src/core/atomicdex/config/raw.kdf.coins.cfg.hpp:63-72 | it only strips keys if and only if the optional members held canonical values |
| RawCoins.DecimalsTruncated | src/core/atomicdex/config/raw.kdf.coins.cfg.hpp:63-72 | a concrete entry, with a fractional number of decimals, that is written back with another number |
| RawCoins.NormalisedTwice | src/core/atomicdex/config/raw.kdf.coins.cfg.hpp:133-215 | the normalisation is idempotent and does not change what is decoded |
| RawCoinsRegistry.DecodeAllAt | src/core/atomicdex/config/raw.kdf.coins.cfg.hpp:240-242 | a list of coins decodes if and only if each element does, element by element |
| RawCoinsRegistry.ParseRegistry | src/core/atomicdex/config/raw.kdf.coins.cfg.hpp:217-254 | the loop fills the registry with what the last entry of each name says when the document is an array of acceptable entries, and leaves it empty otherwise |
| RawCoinsRegistry.RegistryListed | src/core/atomicdex/config/raw.kdf.coins.cfg.hpp:244-244 | every listed coin is stored under its own name |
| RawCoinsRegistry.RegistryLast | src/core/atomicdex/config/raw.kdf.coins.cfg.hpp:244-244 | what is stored under a name is the last entry listed with that name |
| RawCoinsRegistry.RegistryMeaning | src/core/atomicdex/config/raw.kdf.coins.cfg.hpp:240-244 | the registry of an acceptable document has its names, each with what the last entry of that name says, key by key |
| CoinSelection.EnableCoins | src/app/app.cpp:67-106 | refuses over the limit; otherwise sends the request followed, once each and in some order, by exactly the coins that are known, not requested, neither enabled nor active, and in which a requested coin pays its fees |
| CoinSelection.ExtrasAreWanted | src/app/app.cpp:79-99 | a fee coin is added if and only if it is needed in that sense |
| CoinSelection.ExtrasDisjoint | src/app/app.cpp:83-97 | the fee coins added are known and none of the requested ones |
| CoinSelection.ExtrasBound | src/app/app.cpp:78-99 | there are at most as many as requested coins |
| CoinSelection.LimitKeptExactly | src/app/app.cpp:69-73 | an accepted request stays within the limit if and only if its fee coins fit in what it left over |
| CoinSelection.LimitExceeded | src/app/app.cpp:69-104 | a concrete accepted request that exceeds the limit |
| CoinSelection.RequestCovered | src/app/app.cpp:79-99 | each requested coin's fee coin is sent along, already enabled or active, or unknown |
| CoinSelection.SinglePassClosesExactly | src/app/app.cpp:79-104 | everything sent has its fees covered if and only if each fee coin added pays for itself or in a coin requested, added, enabled, active or unknown |
| CoinSelection.SinglePassCloses | src/app/app.cpp:79-104 | in particular, with one level of fee coins one pass is the transitive closure whatever is requested |
| CoinSelection.SinglePassMayMissAGrandparent | src/app/app.cpp:79-104 | a concrete table with two levels in which it does not |
| CoinSelection.DisableCoins | src/app/app.cpp:113-142 | disables every occurrence of a coin that is ready, not swapping and not a main coin, tokens from the last requested to the first and then the others as requested; reports, as requested, those that are not ready |
| CoinSelection.DisabledExactly | src/app/app.cpp:119-141 | how often each coin is disabled and reported, by readiness, swaps and the main coins |
| CoinSelection.DisableOrderPicks | src/app/app.cpp:130-139 | the positions of the request that are disabled, and in which order |
| CoinSelection.FailedPicks | src/app/app.cpp:125-128 | the positions of the request that are reported, in order |
| CoinSelection.DisableSplits | src/app/app.cpp:119-141 | the request splits, as a multiset, into refused, reported and disabled coins |
| CoinSelection.TokensBeforeCoins | src/app/app.cpp:123-139 | in the list every token stands before every coin paying its own fees, and no refused coin appears |
| FeeTickers.HomesMakeOneLevel | src/core/atomicdex/config/coins.cfg.cpp:285-404 | when fee coins are listed on their own networks, fee tickers form one level |
| FeeTickers.RequestsClose | src/app/app.cpp:67-106 | then everything sent by an accepted request has its fees covered |
| CoinsReset.ActiveCoins | src/app/app.cpp:249-253 | collects exactly the active coins; throws exactly when an entry has no boolean flag |
| CoinsReset.ActivateAll | src/app/app.cpp:274-287 | activates exactly the collected coins that are listed, whatever the order of the set |
| CoinsReset.Reset | src/app/app.cpp:249-295 | the written file is the merge of the old and the shipped one |
| CoinsReset.MergedMeaning | src/app/app.cpp:249-287 | exactly the shipped coins, active when shipped active or active before, otherwise as shipped |
| CoinsReset.MergedExactly | src/app/app.cpp:249-287 | the merged file entry by entry, told from the two files alone |
| CoinsReset.MergedTwice | src/app/app.cpp:249-287 | resetting twice with the same defaults is resetting once |
| CoinsReset.ResetCustomTokens | src/app/app.cpp:300-303 | custom tokens keep everything but their flags, which are switched off |
| Lifecycle.FirstOccurrences | src/app/app.cpp:370-377 | the batch has the queued tickers, each once |
| Lifecycle.OwnedStep | src/app/app.cpp:356-379 | every step keeps each heap copy queued once and unfreed, or unqueued and freed once |
| Lifecycle.ServedRefreshes | src/app/app.cpp:404-426 | serving a queue refreshes orders for exactly the actions at whose turn the service runs, in order, each as it asks |
| Application.App.OnCoinFullyInitialized | src/app/app.cpp:522-540 | duplicates and queues every ticker, unless exiting or unsubscribed |
| Application.App.OnKdfInitialized | src/app/app.cpp:567-571 | sets the status to enabling, if subscribed |
| Application.App.OnProcessOrdersAndSwapsFinished | src/app/app.cpp:764-771 | queues the action with the event's reset flag, unless exiting or unsubscribed |
| Application.App.ExitHandler | src/app/app.cpp:806-812 | marks the service and sets the exit flag |
| Application.App.ConnectSignals | src/app/app.cpp:641-653 | subscribes all handlers |
| Application.App.DisconnectSignals | src/app/app.cpp:620-627 | removes exactly the handlers that connecting adds |
| Application.App.DrainPortfolio | src/app/app.cpp:355-379 | empties the queue, frees each copy once, sets the flags and collects first occurrences |
| Application.App.Announce | src/app/app.cpp:381-399 | makes the calls and sets the status of a non-empty batch |
| Application.App.ServeActions | src/app/app.cpp:403-426 | serves all actions in order, or none when about to exit: one refresh, with or without reset as the action asks, for each action at whose turn the service runs, and no other call |
| Application.App.DoTick | src/app/app.cpp:343-427 | reconnects if needed, drains and announces the portfolio if the service runs, serves the actions; keeps ownership |
| Application.App.ClearPortfolio | src/app/app.cpp:592-597 | frees what is still queued |
| Application.App.DoDisconnect | src/app/app.cpp:583-639 | empties both queues, frees every queued copy, removes the handlers, resets flags and status; keeps ownership |
| LifecycleRuns.InvRun | src/app/app.cpp:343-427 | over every run: ownership, all handlers or none, and a complete wallet has both main coins enabled |
| LifecycleRuns.CopiesConserved | src/app/app.cpp:356-379 | over every run, copies made = copies freed + copies queued, each in exactly one of the two |
| LifecycleRuns.SessionIsolation | src/app/app.cpp:583-639 | after a disconnection the calls made depend on the later steps alone |
| LifecycleRuns.QuietUntilTick | src/app/app.cpp:619-629 | after a disconnection the queues stay empty until a tick reconnects |
| LifecycleRuns.InitialisedWereAnnounced | src/app/app.cpp:356-383 | what reaches the portfolio was queued or announced by an event of the run; which of those are accepted, and what becomes of each, is PortfolioRuns.TickersConserved |
| LifecycleRuns.SessionInitialisesItsOwn | src/app/app.cpp:383-383 | what a session initialises was announced in that session |
| LifecycleRuns.SessionDispatchesItsOwn | src/app/app.cpp:403-426 | the actions leaving the queue or still in it are, in order, those accepted in the session |
| LifecycleRuns.FlagsExactly | src/app/app.cpp:362-369 | since the last disconnection a main coin counts as enabled if and only if the portfolio was initialised with it |
| LifecycleRuns.CompleteMeansBoth | src/app/app.cpp:384-393 | a complete wallet had both main coins announced in the current session |
| PortfolioRuns.TickAnnounces | src/app/app.cpp:381-399 | how often a tick makes each call when it initialises the portfolio |
| LifecycleRuns.TickCompletes | src/app/app.cpp:384-393 | after it the status is complete if and only if both main coins are enabled |
| LifecycleRuns.TickIdles | src/app/app.cpp:353-381 | a tick with the service stopped or nothing queued leaves portfolio, flags and status alone |
| LifecycleRuns.ActionsConserved | src/app/app.cpp:403-426 | queued and accepted actions are, in order, those dispatched, dropped or cleared and those still queued |
| LifecycleRuns.OrderCallsAreDispatches | src/app/app.cpp:411-425 | orders are refreshed once per dispatched action, in order, with its reset flag, and never otherwise |
| LifecycleCalls.TickRefreshes | src/app/app.cpp:403-426 | a tick that is not exiting refreshes orders once per queued action at whose turn the service runs, in order, with a reset exactly for the actions asking for it |
| LifecycleCalls.RunAnswers | src/app/app.cpp:764-771 | over every run the order refreshes are, in order, those of the events accepted and served by the next tick while the service runs, each with its event's reset flag |
| LifecycleCalls.CallsInOrder | src/app/app.cpp:346-426 | the calls of a step come in one fixed order, whichever of them are made |
| LifecycleCalls.IdleTickCalls | src/app/app.cpp:346-402 | a tick that initialises nothing reconnects if needed and lets the trading page work, and makes no other call than order refreshes |
| LifecycleCalls.RunMade | src/app/app.cpp:343-402 | over every run the trading page works once per tick, the service is created once per reconnection and marked once per disconnection and exit, and the pages are cleared once per disconnection |
| LifecycleCalls.StatusAfter | src/app/app.cpp:381-393 | after every run the status is what the last step that sets one made it: none, initializing, enabling or complete |
| PortfolioRuns.TickersConserved | src/app/app.cpp:356-379 | queued and accepted tickers are, in order, those drained by a tick, those cleared by a disconnection and those still queued |
| PortfolioRuns.BatchesAreDrains | src/app/app.cpp:355-383 | over every run the portfolio is initialised once per drain, in order, with the drained tickers, each once, and with nothing else |
| PortfolioRuns.InitialisedWereAccepted | src/app/app.cpp:356-383 | what reaches the portfolio was queued at the start or accepted from an event of the run |
| PortfolioRuns.SessionKeepsItsTickers | src/app/app.cpp:583-639 | a session drains, clears or still queues, in order, exactly the tickers accepted in it |
| PortfolioRuns.CallsCounted | src/app/app.cpp:381-399 | over every run: value updates, ticker refreshes, transaction resets and fetch notices are counted by the drains, those leaving the wallet complete, and those bringing the primary coin |
| PortfolioRuns.FirstOccurrencesOrder | src/app/app.cpp:370-377 | a batch keeps the order of first occurrence |
| LifecycleRuns.AfterExit | src/app/app.cpp:806-812 | once about to exit it stays so, the queues never grow and no order refresh is made |
| Interleaving.InvStep | src/app/app.cpp:522-597 | every single access keeps each copy in at most one place, freed exactly when in none |
| Interleaving.InvRun | src/app/app.cpp:522-597 | under every interleaving no copy is freed twice, read after being freed, or lost |
| Interleaving.RecentRun | src/app/app.cpp:522-540 | from a quiescent disconnection on, only tickers of the session itself are drained |
| Interleaving.DrainsLeftover | src/app/app.cpp:346-379 | whatever is queued or in flight when a disconnection removes the handlers can be drained once a tick has reconnected them |
| Interleaving.DrainsLatecomer | src/app/app.cpp:525-532 | a callback of an earlier session still in flight can have its ticker drained once the handlers are back |
| Interleaving.IsolatedExactly | src/app/app.cpp:583-627 | a disconnection isolates the next session if and only if nothing is queued and no callback is in flight when it removes the handlers |
| Interleaving.DisconnectMayNotIsolate | src/app/app.cpp:583-627 | a run from the start in which a disconnection does not isolate, and the ticker drained in the next session |
| InterleavingRefinement.CallbackRuns | src/app/app.cpp:522-540 | a callback that nothing interrupts queues fresh copies of its tickers in order |
| InterleavingRefinement.StepSimulated | src/app/app.cpp:343-639 | every atomic step of the lifecycle is some sequence of single accesses |
| InterleavingRefinement.RunSimulated | src/app/app.cpp:343-639 | so every run of atomic steps is a run of the interleaved machine, with the same queue and the same copies at its end |

## Left out

- Files, paths, parsing of JSON text, logging and I/O failures: a file is a value and a write replaces it.
- Address book contents loaded from a file: the invariant is proved from an empty book; a loaded file that breaks
  it, or that is not an array, is not part of this model.
- AddressBookManager.AddressBook.RemoveContactWalletInfo: requires the kind to be present, because the program
  otherwise erases a past-the-end iterator.
- Entries under construction: a wallet entry is created with an empty address map, where the program creates it
  without one and adds it in the next statement.
- AppConfig.Settings.ChangeCurrencyTo: requires that no empty vector is indexed or popped, because the program
  does not check; `AppConfigRuns.RunDefined` shows that this never happens once the loaded vectors are non-empty.
- Floating point: numbers are reals, so rounding of doubles is not modelled; a float out of the 64-bit range read
  into an integer member, undefined in C++, counts as a decoding failure.
- RawCoins.DecodeEncode: the thirty optional struct members are one map from member to value, and the assignments
  to them, one statement each in the program, are functions over the table of members.
- Service bodies (coin service, order book, portfolio, wallet and trading pages): their answers are parameters and
  the calls to them are logged. The frame processed at the start of a tick and on exit is not part of a step: the
  callbacks it triggers are steps of their own.
- The balance and fiat-rate callbacks: they only forward to pages.
- The reset of the wallet page's current ticker when that coin is disabled, and the removal of the default wallet file.
- Lock-free queue internals and allocation failure: the queues are unbounded sequences, and blocks are numbered by
  allocation rather than by reusable address.
- Interleaving: covers the portfolio queue and its callback, the one place where memory is handed between threads;
  the actions queue holds plain values and is modelled with atomic steps only.
- FeeTickers.HomesMakeOneLevel: gives a sufficient condition on the listed coins; the name-to-type table and the
  other fields of a coin's configuration are plain copying and are not modelled.
