# Ponto-gamificação server: a verified model of its ledger

The server (`server.js`) is an Express application over an SQLite file with
two tables. `usuarios` holds each user's id, nome, email (unique), senha and
coin balance (`moedas`). `pontos` is an append-only log of clock-ins (id,
usuario_id, data, hora). Five routes act on them:

- `POST /api/cadastrar` registers a user with a zero balance.
- `POST /api/login` looks a user up by email and senha.
- `POST /api/ponto` records a clock-in and then, as a second write, credits 10 coins.
- `GET /api/moedas/:usuario_id` returns a balance.
- `GET /api/pontos/:usuario_id` returns a user's clock-in history, newest first.

This project models the two tables as one immutable value
(`Store.Db`: the two tables plus their AUTOINCREMENT counters). It models each
route as a pure function from the request inputs and the tables to a status
code, a JSON payload and the tables afterwards (`Routes`). It then proves what
the handlers promise and what they keep (`Consistency`, `Scenarios`).

The invariant that matters is the ledger. Every user's balance should be 10
coins times the number of that user's pontos, and every ponto should belong
to a user, as the schema's FOREIGN KEY declares. Registration keeps the
ledger, and so does a clock-in for an existing user whose two writes succeed.
The clock-in handler as written breaks it in two ways, both proved (see
Findings). A corrected clock-in (`Consistency.RegistrarPontoAtomico`) is
proved to keep the ledger on every input. The request dispatcher
`Consistency.Handle` uses it, and any sequence of requests served that way
keeps the invariant (`Consistency.RunKeepsLedger`).

Modelling choices:

- Request body fields are `Option<string>`, or `Option<int>` for `usuario_id`.
  The handlers' `!field` checks reject JavaScript's falsy values. For these
  types, falsy means a missing field, `""` or `0`.
- `db.get` returns the first matching row in rowid order (`Store.Select`).
  The tables are kept as sequences in increasing id order.
- SQLite enforces FOREIGN KEY only after `PRAGMA foreign_keys = ON`. The
  server never issues that pragma, so a ponto for an unknown id is inserted.
- The clock-in's date and time strings are opaque inputs. Whether the second
  write (the UPDATE) fails is a boolean input.
- Error messages are the constructors of `Routes.Mensagem`, one per modelled
  error reply. `PontoNaoRegistrado` belongs to the corrected clock-in only.
  The passwords never appear in a reply, because `Routes.Perfil` has no
  senha field.

Facts of `server.js` the model fixes:

- Each clock-in earns 10 coins (server.js:100).
- User and ponto ids are AUTOINCREMENT integers (server.js:15, server.js:26).
- `/api/ponto` replies with the coins added, `moedasAdicionadas` (server.js:122).
- History rows carry `data` and `hora` (server.js:155).
- An id with no pontos gets a 200 with an empty list (server.js:162).
- The login credential is the email with the senha (server.js:73).

## Model

| member | source | states |
|---|---|---|
| `Store.Select` | server.js:134-144 | A row comes back exactly when some row satisfies the WHERE clause, and it satisfies it. When at most one row can match, it is that row. |
| `Store.UniqueIdsAtMostOne` | server.js:15 | With ids in increasing order (the INTEGER PRIMARY KEY), a lookup by id matches at most one user. |
| `Store.UniqueEmailsAtMostOne` | server.js:17 | With the UNIQUE email, a lookup by email, or by email and senha, matches at most one user. |
| `Store.Credit` | server.js:114-116 | The UPDATE adds the amount to exactly the rows with that id. Every row keeps its id, nome, email and senha. |
| `Store.CreditNoMatch` | server.js:114-116 | An UPDATE whose WHERE matches no row leaves the table unchanged. |
| `Store.CountAppend` | server.js:104-106 | Appending a ponto raises its user's count by one and no other user's count. |
| `Store.SelectPontos` | server.js:154-155 | The history query returns exactly the pontos with that usuario_id, as many as the user's count, in strictly decreasing id order. |
| `Store.DecreasingUnique` | server.js:155 | Two id-descending lists with the same pontos are equal, so ORDER BY id DESC fixes the reply. |
| `Routes.Cadastrar` | server.js:35-63 | 400 exactly when nome, email or senha is falsy. 409 exactly when the email is already registered. Either error leaves the tables unchanged. Otherwise 201 with the next id, and exactly one row is appended with a zero balance; pontos are untouched. |
| `Routes.Login` | server.js:66-87 | 400 exactly when email or senha is falsy. 401 exactly when no user matches both. 200 carries the id, nome, email and moedas of a user matching both (with unique emails, of every such user), and never the senha. The tables are unchanged. |
| `Routes.RegistrarPonto` | server.js:90-128 | A falsy id gives 400 with no change. Otherwise exactly one ponto is appended for that id, whether or not the user exists. If the UPDATE succeeds, only rows with that id gain 10 coins and the reply is 200 with 10 coins added. If it fails, no balance changes, the ponto stays and the reply is 500. |
| `Routes.Moedas` | server.js:131-148 | 404 exactly when no user has the id. Otherwise 200 with that user's stored balance. The tables are unchanged. |
| `Routes.Pontos` | server.js:151-165 | Always 200, with as many entries as the id has pontos. The entries are the (data, hora) of a list holding exactly that id's pontos, newest first. The tables are unchanged. |
| `Routes.PontosExactly` | server.js:154-162 | Any list of exactly the user's pontos in descending id order is the one the history reply lists. |
| `Consistency.CadastrarKeepsValid` | server.js:51-59 | Registration keeps ids increasing and below the counter and emails unique. A new id exceeds every existing id. |
| `Consistency.RegistrarPontoKeepsValid` | server.js:104-116 | Every outcome of a clock-in keeps the schema invariant. |
| `Consistency.CadastrarKeepsLedger` | server.js:51-53 | When the ledger holds, every registration outcome keeps it: the new user has 0 coins and no pontos. |
| `Consistency.RegistrarPontoKeepsBalance` | server.js:100-122 | For an existing user, a clock-in whose writes both succeed replies 200 and keeps every balance equal to 10 coins per ponto, whether or not orphan pontos exist. |
| `Consistency.RegistrarPontoKeepsLedger` | server.js:100-122 | For an existing user, a clock-in whose writes both succeed replies 200 and keeps the ledger. |
| `Consistency.UpdateFailureBreaksBalance` | server.js:113-121 | For an existing user, a failed UPDATE replies 500, keeps the new ponto and leaves the balance behind its count. |
| `Consistency.OrphanPonto` | server.js:104-122 | A clock-in for an id no user has replies 200 with 10 coins added. No balance changes and the new ponto is an orphan. |
| `Consistency.OrphanThenCadastrarBreaksBalance` | server.js:24-32 | An orphan ponto for the next user id, then a registration: both succeed, and the new user has 0 coins but one ponto. |
| `Consistency.RegistrarPontoAtomico` | server.js:90-128 | Corrected clock-in. 400 exactly for a falsy id, with the id-required message. 404 exactly for an unknown user, with the user-not-found message. 500 exactly when the UPDATE fails, with the tables unchanged and a message saying the ponto was not recorded. Otherwise the same tables and reply as a fully successful clock-in. |
| `Consistency.RegistrarPontoAtomicoKeepsLedger` | server.js:102-127 | The corrected clock-in keeps the schema invariant and the ledger on every input. |
| `Consistency.HandleKeepsLedger` | server.js:35-165 | Serving any one request, with the corrected clock-in, keeps the schema invariant and the ledger. |
| `Consistency.RunKeepsLedger` | server.js:35-165 | Serving any sequence of requests with the corrected clock-in keeps both invariants. |
| `Consistency.RunAsWrittenBreaksLedger` | server.js:104-116 | From an empty database, a clock-in for id 1 and then a registration break the ledger as written but not when corrected. |
| `Scenarios.CadastrarThenQueries` | server.js:51-59 | After a successful registration, the same credentials log in as the new user. The balance query shows 0 and the history is empty. |
| `Scenarios.SelectPontosAppend` | server.js:104-106 | After an INSERT, the history lists the new ponto first when it belongs to the user, and is otherwise unchanged. |
| `Scenarios.MoedasOfUser` | server.js:134-145 | In increasing-id order, the balance query returns the balance of the user with that id. |
| `Scenarios.CreditedRow` | server.js:114-116 | After a successful clock-in, the user's row is still there with 10 more coins. |
| `Scenarios.RegistrarPontoThenQueries` | server.js:100-122 | After a successful clock-in, the balance query shows 10 more coins and the history gains the new (data, hora) at its head. |
| `Scenarios.HistoricoAfterInsert` | server.js:154-162 | After an INSERT, the owner's history reply lists the new (data, hora) first, followed by the earlier entries. |
| `Scenarios.SaldoMatchesHistorico` | server.js:131-162 | While balances agree with the log, the balance query returns 10 times the length of the history reply. |
| `Scenarios.PontosUnknownId` | server.js:151-162 | With no orphans, the history of an id no user has is a 200 with an empty list. |
| `Scenarios.RepetirRow` | server.js:100-122 | After N successful clock-ins, the user's row has N × 10 more coins and the count rises by N. The schema invariant still holds. |
| `Scenarios.RepetirCredits` | server.js:100-122 | After N successful clock-ins, the balance query shows N × 10 more coins and the history has N more entries. |

## Findings

| source | as written | input that shows it | evidently intended | confidence | as-written member | corrected member |
|---|---|---|---|---|---|---|
| server.js:104-106 | The ponto is inserted without checking that the user exists. The FOREIGN KEY is declared but not enforced, and the reply still says coins were added. | On an empty database, POST /api/ponto with usuario_id 1, then register a user. That user gets id 1, 0 coins and one ponto. | Refuse an unknown user and leave no orphan ponto. | medium, not executed | `Consistency.OrphanThenCadastrarBreaksBalance` | `Consistency.RegistrarPontoAtomico` |
| server.js:113-121 | The INSERT and the UPDATE are separate writes. When the UPDATE fails, the ponto stays without its coins. | An existing user's clock-in whose UPDATE fails. | Both writes in one transaction: all or nothing. | medium, not executed | `Consistency.UpdateFailureBreaksBalance` | `Consistency.RegistrarPontoAtomicoKeepsLedger` |

## Left out

- Express setup, CORS, JSON body parsing and `app.listen`. This is framework plumbing with no logic.
- The SQLite driver and its callbacks. Their effect on the tables is modelled; the SQL engine is not.
- The generic storage-error 500 replies, for the failed SELECT, INSERT and history query. They are outside the model. Only the UPDATE failure in `/api/ponto` is an input, because it bears on the ledger.
- The `toLocaleDateString`/`toLocaleTimeString` formatting. It depends on the host clock and locale, so the strings are opaque inputs.
- Concurrency: the race between the duplicate-email check and the INSERT, and `db.serialize` ordering. The model is sequential.
- Plaintext password storage and comparison, and console logging. They have no functional effect.
- JSON values of other types, such as a number in a text field or a numeric string as `usuario_id`. SQLite type affinity is not modelled either. Path parameters are taken to be integers.
- Integer width: a balance is unbounded. SQLite's conversion of an overflowing 64-bit sum to REAL is not modelled. Neither is exhaustion of the AUTOINCREMENT counter.
- The `status`/`mensagem` envelope texts. Each modelled error reply has a `Routes.Mensagem` constructor; the storage-error 500 texts have none, since those replies are left out, and success texts are implied by the status.
