# Wallet service ledger core, in Dafny

This project models the core of a small wallet service. The service keeps a table of wallets. Each wallet has a UUID token, an owner and a balance. Beside the table it keeps an append-only history log with one row per deposit or charge attempt. The model covers:

- the wallet manager's queries: count, list, lookup by token, the unique wallet of a user, and the per-role creation limit;
- wallet creation;
- `Wallet.deposit`, which credits a wallet and logs a "Deposit" row;
- `Wallet.make_charge`, which moves money from a source wallet into the wallet it runs on only when the source holds enough. It logs the outcome either way, and it fails with nothing written when the source token is unknown;
- the history manager's two insert helpers and its newest-first history query;
- the amount validator `deposit_is_valid`.

Files and modules:

- `validators.dfy`, module `Validators`. A Python `Decimal` is a datatype: finite (sign bit, coefficient, exponent), infinite, or NaN. The validator is a pure function from "a value that converts to a `Decimal`" or "text that does not" to an accepted value or one of two rejections. `Value` gives the number a finite decimal denotes, and `Cents` gives it in hundredths.
- `wallet_models.dfy`, module `WalletModels`. This holds the two tables as values:
  - a `map` from token to wallet and a `seq` of history entries;
  - the read-only queries as functions over them;
  - the two mutating operations and wallet creation as functions from old tables to new ones (`AfterCreate`, `AfterDeposit`, `AfterCharge`);
  - the invariant `Good`: every balance equals the successful inflow minus the successful outflow recorded for that wallet, no balance is negative, every entry refers to existing wallets with a positive amount, and each entry carries its log position as its date;
  - the lemmas about all of the above.
- `wallet_store.dfy`, module `WalletStore`. Class `Store` holds the two tables as fields. Its methods change them step by step in the order wallets/models.py does: debit the source, credit the target, then insert the history row. `CreateNew`, `Deposit` and `MakeCharge` are each proved to produce exactly the tables their `After…` function gives and to keep `Valid()`. `NewDeposit` and `NewTransfer` only append one row and leave the wallet table alone.

Amounts are integers in hundredths. The balance and amount columns and the request fields all have two decimal places. The store's `Deposit` and `MakeCharge` require a strictly positive amount. In the service the validator guarantees this before the store is reached (wallets/serializers.py:24 and 38), and `AcceptedAmountIsPositiveCents` connects the two.

Each Django transaction (`transaction.atomic`) is one sequential method. A timestamp from `timezone.now` is replaced by the entry's position in the log, so ordering by date descending means highest position first. A token from `uuid.uuid4` becomes a parameter `generated`. If that token is already in the table, the insert fails on the primary key and nothing changes.

Some behaviour of the code worth knowing:

- **Self-charges.** Nothing on the charge path rejects a charge whose source is the wallet it runs on. `Wallet.is_the_same` (wallets/models.py:96) is never called. The debit and credit cancel out, and a successful row is still logged (`SelfChargeKeepsBalance`).
- **Non-finite values.** The validator's docstring asks for "a numeric number, higher than 0" (wallets/validators.py:9). Yet the validator on its own accepts "NaN", "sNaN" and "Infinity", because their `Decimal` is neither signed nor zero. It rejects "-NaN" and "-Infinity" as not positive (`NonFiniteVerdict`). In the service, the DRF `DecimalField` in front of the validator rejects these values before it runs.
- **Deposit's amount check.** `Wallet.deposit` does not check the amount itself. Positivity comes from the validator in front of it, so the model states it as a precondition.

## Model

| member | source | states |
|---|---|---|
| `Validators.DepositIsValid` | wallets/validators.py:13-20 | Text that does not convert is rejected as "not a number", and only such text is. A converted value is rejected as "not positive" exactly when it is signed or zero. An accepted result is the input value, unchanged. |
| `Validators.FiniteVerdictFollowsValue` | wallets/validators.py:14-18 | For a finite decimal the verdict depends only on the number it denotes. Greater than 0 is accepted unchanged. 0 or less is rejected as not positive. |
| `Validators.NegativeRejected` | wallets/validators.py:15-16 | A negative number is rejected with the "must not be less or equals to 0" message. |
| `Validators.ZeroRejected` | wallets/validators.py:15-16 | Every zero is rejected as not positive, whatever its sign bit or exponent. |
| `Validators.PositiveAccepted` | wallets/validators.py:17-18 | A strictly positive finite number is accepted and returned unchanged. |
| `Validators.MessagesDistinct` | wallets/validators.py:15-19 | The two rejections carry different messages, so a caller can tell them apart. |
| `Validators.BoundaryExamples` | wallets/validators.py:15-18 | 0, -0 and -0.01 are rejected as not positive; 0.01 is accepted. |
| `Validators.NonFiniteVerdict` | wallets/validators.py:14-18 | Infinity and NaN are judged by their sign bit alone. Signed ones are rejected as not positive; unsigned ones are accepted unchanged. |
| `Validators.AcceptedAmountIsPositiveCents` | wallets/serializers.py:24 | An accepted finite amount with at most two decimal places is a strictly positive number of hundredths, equal to the amount times 100. |
| `WalletModels.CountByUser` | wallets/models.py:15-17 | The number of the owner's wallets: at most the table size, and 0 exactly when no wallet belongs to the owner. |
| `WalletModels.GetAllByUser` | wallets/models.py:43-45 | Exactly the stored wallets whose owner is the user, in no order. |
| `WalletModels.AllByUserMatchesCount` | wallets/models.py:43-45 | The list has as many wallets as `count_by_user` counts. |
| `WalletModels.GetByToken` | wallets/models.py:23-30 | Finds a wallet exactly when the token is a well-formed UUID present in the table, and returns that stored row. A malformed or unknown token gives none. |
| `WalletModels.GetUniqueByUser` | wallets/models.py:47-54 | Returns a wallet exactly when the owner has exactly one. That wallet is the owner's stored row and the owner's only wallet. Zero or several give none. |
| `WalletModels.CanCreateNew` | wallets/models.py:32-41 | Allows creation exactly when the user has the client or the company role and the maximum for that role (client checked first) is 0 or above the user's current count. A user with neither role is refused. |
| `WalletModels.BelowLimitAllows` | wallets/models.py:35-40 | With the user's count below a positive maximum for their role, creation is allowed. |
| `WalletModels.LimitReachedRefuses` | wallets/models.py:35-40 | With a non-zero maximum for the user's role (client checked first) already reached, creation is refused. |
| `WalletModels.UnlimitedRoleAllows` | wallets/models.py:35-40 | With a maximum of 0 for the user's role, creation is always allowed. |
| `WalletModels.GuardedCreationRespectsLimit` | wallets/models.py:32-41 | Creating a wallet only when `can_create_new` allows it never takes a user's count past a non-zero maximum for their role. |
| `WalletModels.AfterCreate` | wallets/models.py:19-21 | `create_new` on the tables: the history is untouched, the token set gains the generated token, and existing rows are unchanged. A token already present leaves everything as it was. The count and the invariant are proved in `CreateCountsOne` and `CreatePreservesGood`. |
| `WalletModels.CreateCountsOne` | wallets/models.py:19-21 | Creating a wallet under a fresh token adds a balance-0 wallet for the owner. It raises the owner's count by one and leaves every other owner's count unchanged. |
| `WalletModels.CreatePreservesGood` | wallets/models.py:19-21 | Creation keeps the invariant. The new wallet's balance of 0 reconciles because no history entry refers to it. |
| `WalletModels.AfterDeposit` | wallets/models.py:100-111 | `Wallet.deposit` on the tables: same wallet tokens, and the log grows by exactly one row with the old rows kept. The balance change, the row's fields and the invariant are proved in `DepositPreservesGood`. |
| `WalletModels.DepositPreservesGood` | wallets/models.py:100-111 | A deposit raises that wallet's balance by exactly the amount and leaves every other wallet unchanged. It appends exactly one row: summary "Deposit", no source, that wallet as target, the amount, success true. It keeps reconciliation and non-negativity. |
| `WalletModels.DepositsCommute` | wallets/models.py:100-111 | Two deposits give the same balances in either order, and each adds one history row. |
| `WalletModels.ChargeOutcomeOf` | wallets/models.py:120-132 | The outcome `make_charge` reports: not found, charged or insufficient funds. Its three cases are proved in `MissingSourceChangesNothing`, `ChargeMovesMoney`, `SelfChargeKeepsBalance` and `InsufficientChargeOnlyLogs`. |
| `WalletModels.AfterCharge` | wallets/models.py:113-132 | `make_charge` on the tables: same wallet tokens, the old rows kept, and one row more unless the source is not found. What moves and what is logged is proved in the charge lemmas below. The invariant is proved in `ChargePreservesGood`. |
| `WalletModels.DepositEntry` | wallets/models.py:141-143 | The row `new_deposit` inserts: summary "Deposit", no source, the wallet as target, success true by the field default (wallets/models.py:185). Its fields are stated in `DepositPreservesGood` and `Store.NewDeposit`. |
| `WalletModels.TransferEntry` | wallets/models.py:145-148 | The row `new_transfer` inserts, with the given source, target, summary, amount and success. Its fields are stated in `ChargeMovesMoney`, `InsufficientChargeOnlyLogs` and `Store.NewTransfer`. |
| `WalletModels.TransferBalances` | wallets/models.py:121-125 | Debit-then-credit changes balance k by minus the amount if k is the source, plus the amount if k is the target (both if both). Token, owner and key set stay unchanged. |
| `WalletModels.ChargeMovesMoney` | wallets/models.py:120-129 | With source balance at least the amount and distinct wallets, the charge reports success. The source loses the amount, the target gains it, other wallets are untouched, and one successful row with the given summary, source, target and amount is appended. |
| `WalletModels.SelfChargeKeepsBalance` | wallets/models.py:120-129 | A covered charge of a wallet to itself reports success, leaves the table unchanged and still appends a successful row. |
| `WalletModels.InsufficientChargeOnlyLogs` | wallets/models.py:130-132 | With source balance below the amount, the charge reports insufficient funds, changes no balance and appends exactly one row with success false. |
| `WalletModels.MissingSourceChangesNothing` | wallets/models.py:120 | An unknown source token gives the not-found outcome. Both tables are left exactly as they were and no row is written. |
| `WalletModels.ChargePreservesGood` | wallets/models.py:113-132 | Every outcome of a charge keeps reconciliation, non-negativity and the other parts of the invariant. |
| `WalletModels.SecondFullChargeFails` | wallets/models.py:117-132 | After a charge takes a source's whole positive balance, the source is at 0. A second charge of the same amount fails and moves nothing. |
| `WalletModels.RepeatedShortChargesFail` | wallets/models.py:121-132 | Any number of charges from a source holding less than the amount all fail: no balance changes, the old rows are kept and one failed row per charge, naming the source, is appended. |
| `WalletModels.NoDoubleSpend` | wallets/models.py:117-132 | Charging a source's whole positive balance into another wallet n >= 1 times in a row gives exactly one success, the first, and n - 1 failed rows. The source ends at 0 and the target has gained the balance once. |
| `WalletModels.ChargeScenario` | wallets/models.py:113-132 | From 10.00, a charge of 15.00 fails: nothing moves and a failed row for 15.00 is logged. A following charge of 10.00 succeeds: the source ends at 0.00, the target gains 10.00, and a successful row is logged. |
| `WalletModels.ReplayKeepsGood` | wallets/models.py:100-132 | Any sequence of creations, deposits and charges keeps the invariant `Good` on tables that already satisfy it. |
| `WalletModels.ReplayFromEmptyReconciles` | wallets/models.py:100-132 | Starting from empty tables, after any sequence of requests every balance equals successful inflow minus successful outflow, and none is negative. |
| `WalletModels.FullHistory` | wallets/models.py:150-158 | `get_full_history`: at most as many rows as the log, and every row names the wallet as source or target. Exact membership, multiplicity and order are proved in `FullHistoryMembers`, `FullHistoryCount` and `FullHistoryNewestFirst`. |
| `WalletModels.FullHistoryMembers` | wallets/models.py:150-158 | An entry is in a wallet's history exactly when it is in the log and names the wallet as source or target. |
| `WalletModels.FullHistoryCount` | wallets/models.py:150-158 | Each entry touching the wallet appears in its history as many times as in the log. |
| `WalletModels.FullHistoryNewestFirst` | wallets/models.py:154-156 | On a log dated in increasing order, the history is strictly newest first. |
| `WalletModels.StoreHistoryNewestFirst` | wallets/models.py:154-156 | On tables that keep the invariant, every wallet's history is strictly newest first. |
| `WalletModels.FullHistoryAppend` | wallets/models.py:150-158 | A newly logged entry becomes the first row of the history of every wallet it touches; the other rows are unchanged. |
| `WalletStore.Store.CreateNew` | wallets/models.py:19-21 | Inserts a balance-0 wallet for the owner under the generated token and returns it. A token already present gives none and no change. The invariant is kept. |
| `WalletStore.Store.NewDeposit` | wallets/models.py:141-143 | Appends exactly one row: summary "Deposit", no source, the wallet as target, success true (by default), dated by its position. The wallet table is left alone. |
| `WalletStore.Store.NewTransfer` | wallets/models.py:145-148 | Appends exactly one row with the given source, target, summary, amount and success, dated by its position. The wallet table is left alone. |
| `WalletStore.Store.Deposit` | wallets/models.py:100-111 | The new tables are `AfterDeposit` of the old ones: the balance rises by the amount and one "Deposit" row is appended. The invariant is kept. |
| `WalletStore.Store.MakeCharge` | wallets/models.py:113-132 | The result and new tables are `ChargeOutcomeOf` and `AfterCharge` of the old ones. Not found leaves both tables untouched. Any other outcome appends exactly one row and keeps the old rows. Insufficient funds changes no balance and logs success false. The invariant is kept. |

## Left out

- Concurrency: `transaction.atomic`, `select_for_update` and `models.F` exist for database locking and race avoidance. Each operation is one sequential step, so "no double spend under concurrency" is shown only for charges run one after another (`SecondFullChargeFails`, `NoDoubleSpend`).
- Persistence: `save`, `refresh_from_db`, deletion and the `on_delete` rules of the foreign keys are not modelled. Deletion is not an operation of the core.
- Column widths: balance has 12 digits and a history amount has 8, and the model's integers are unbounded. Overflowing a column would be a database error, so that is not modelled.
- Summary is not limited to 70 characters and may be empty, because those checks belong to the serializer and the database.
- Token and time sources: `uuid.uuid4` is a parameter and `timezone.now` is the log position. Two real timestamps can tie, and the model's dates cannot.
- Validator error paths: only text that the `Decimal` constructor refuses (`InvalidOperation`) is modelled. Values that make it raise other exceptions (e.g. `None`, a list) propagate out of the validator uncaught, and are not modelled.
- Views, URL routing and JSON formatting: wallets/views.py, wallets/urls.py, walletservice/urls.py, `to_json` and `__str__`. The view layer maps outcomes to status codes and checks ownership (`check_if_owner`) before calling the core.
- WalletStore.Store.MakeCharge: the source token is a well-formed UUID (`Token`). For malformed text, `.get(token=...)` at wallets/models.py:120 raises a validation error that `make_charge` does not handle and the view does not catch; that path is not modelled. In the service the `UUIDField` of `WalletChargeSerializer` (wallets/serializers.py:37) rejects such text before `make_charge` runs. `ChargeOutcomeOf` and `AfterCharge` take a `Token` for the same reason.
- `Wallet.is_the_same` is never called, so it has no member.
- Serializers: the serializer declarations themselves are not modelled, beyond the two-decimal amounts and the positive-amount precondition.
- Identity and authentication: users/, clients/ and companies/ are not part of this model, apart from the client/company role flags that `can_create_new` reads.
- Wallet limits: `MAX_WALLETS_BY_CLIENT` and `MAX_WALLETS_BY_COMPANY` come from a settings file that is not part of this model. They are the `Limits` parameter.
