# Quotation system: a Dafny model of its core

This project models the core of a quotation-management system.
- **Backend (NestJS with Prisma):**
  - an admin creates a priced quotation for a client;
  - the service lists, updates, deletes and shows quotations, and keeps an audit log;
  - a nightly job expires quotations whose validity date has passed;
  - an auth service manages users, passwords, refresh tokens and reset tokens.
- **Frontend (React):**
  - the form schemas for login and registration;
  - the auth store;
  - the page count of the quotation list;
  - the sidebar highlighting.

Everything verifies with Dafny 4.11. The modules follow the program:

| file | module | models |
|---|---|---|
| wrappers.dfy | Wrappers | `Option` and `Result` |
| folds.dfy | Folds | a mapping that aborts on the first failure, sums, a newest-first insertion sort, a search for the first match and a filter, all generic |
| jsstrings.dfy | JsStrings | the two lengths the program gives a string: JavaScript's UTF-16 `.length`, and validator.js `isLength`'s count |
| money.dfy | Money | decimal.js values as exact decimals (coefficient and scale), `plus`, `mul`, `toFixed(2)` with ROUND_HALF_UP, and the `new Decimal(string)` parser |
| pricing.dfy | Pricing | the item `map` and total `reduce` at the start of `create` |
| quotations.dfy | Quotations | QuotationService as a class over the quotation, response and audit-log tables |
| expiry.dfy | QuotationExpiry | the expiry job `checkExpiredQuotations` |
| auth.dfy | Auth | AuthService: pure transitions of the user table, and a class whose methods are proved equal to them |
| validation.dfy | Validation | the class-validator constraints of the request bodies, as predicates over JSON |
| schemas.dfy | FormSchemas | the zod login and register schemas, compared with the backend DTOs |
| authstore.dfy | AuthStore | the frontend auth store and its refresh-token cookie |
| pagination.dfy | Pagination | `Math.ceil(total / 50)` and the page buttons |
| navigation.dfy | Navigation | `navItems` and `isActive` of the dashboard sidebar |

## Abstractions

- **Money.**
  - A decimal is an integer coefficient and a decimal scale. Its ghost value is a real.
  - Sums and products are exact, as decimal.js is in this range.
  - `toFixed(2)` rounds half away from zero. It prints the sign of the unrounded value, so it can print "-0.00".
  - `new Decimal(s)` accepts decimal.js's numeral grammar: sign, digits, optional point and fraction, optional exponent. Any other string is rejected, as decimal.js rejects it, with the exceptions listed under "Left out". In particular a string holding any character outside that alphabet is rejected (`Money.ParseRejectsSymbol`).
- **Database.**
  - Each table is a sequence of rows.
  - A generated id is a counter (`nextId`).
  - `createdAt` is the clock value passed to `create`.
  - `new Date(s)` is a parameter `parseDate` that may reject the string. A rejected date makes the write fail.
- **Cryptography.**
  - A JWT is the value of its claims, issue time and expiry. It verifies while the clock is before its expiry.
  - A string not issued by the service is `Text`, which never verifies.
  - A bcrypt hash stores its salt and secret. Code can test a password against it only through `Compare`.
  - Lifetimes are in seconds: seven days for refresh tokens, and for access tokens through the module default (backend/src/auth/auth.module.ts:14); fifteen minutes for reset tokens.
- **Parameters.** These are inputs to the operations:
  - the clock;
  - the bcrypt salt;
  - whether an email was delivered (`emailSent`, `welcomeSent`, `resetMailSent`);
  - whether the database is reachable for the expiry job;
  - the email and ISO-date format checks of validator.js.
- **String lengths.**
  - zod's `.min(n)` compares `.length`, the count of UTF-16 code units, so an astral character (an emoji, say) counts two.
  - class-validator's @MinLength calls validator.js `isLength`. It counts one per character and nothing for the presentation selectors U+FE0E and U+FE0F.
  - Both counts equal `|s|` on plain text (`JsStrings.LengthMeasures`).

A few places where the code differs from its design notes are modelled as the code behaves:
- A quotation with no items is accepted. Its total is "0.00".
- `update` writes any `status` that names an enum value. It does not check for a transition.
- `create` takes the admin id from the request body. That field is not declared on CreateQuotationDto, but the validation pipe does not run with `whitelist`, so the field reaches the service when it is sent. The frontend's create form does not send it. Without it Prisma receives an undefined owner, and the model takes the database to refuse the row (`MissingOwner`), writing nothing.
- Refreshing does not rotate the refresh token: it stays valid until it expires or the user logs out (`Auth.LoginThenRefresh`).
- When the welcome or reset email fails, `register` and `forgotPassword` throw. The user row or reset token is already written by then.
- When the quotation email fails, `create` throws after inserting the quotation and before writing its audit row.
- `logout` turns every failure into 'Invalid token'.
- `refreshToken` rethrows the JWT library's error unchanged (`InvalidJwt`).

## Model

| member | source | states |
|---|---|---|
| Money.Plus | backend/src/quotation/quotation.service.ts:25 | the sum is exact: its value is the sum of the values, at the larger of the two scales |
| Money.Times | backend/src/quotation/quotation.service.ts:22-25 | the product is exact: its value is the product of the values |
| Money.RoundHalfUp | backend/src/quotation/quotation.service.ts:32 | n/d rounded to the nearest integer, ties away from zero, with the bounds that make it unique |
| Money.Round2IsNearest | backend/src/quotation/quotation.service.ts:32 | the cents toFixed(2) prints are within half a cent of 100·x; a tie goes away from zero |
| Money.Round2OfCents | backend/src/quotation/quotation.service.ts:32 | an amount already in whole cents is printed unchanged |
| Money.ParseToFixed2 | backend/src/quotation/quotation.service.ts:32-37 | reading back toFixed(2)'s output gives exactly the rounded cents, including "-0.00" |
| Money.ParseSignedCents | backend/src/quotation/quotation.service.ts:37 | a signed numeral `a.bc` reads back as ±abc cents at scale 2 |
| Money.ParseNatToString | backend/src/quotation/quotation.service.ts:22 | a non-negative integer's decimal numeral reads back as that integer |
| Money.NatToStringInjective | backend/src/quotation/quotation.service.ts:32 | different integers print as different numerals |
| Money.ParseRejectsSymbol | backend/src/quotation/quotation.service.ts:23 | a string of any length holding a character that is no digit, point, sign or exponent marker is not a numeral, so `new Decimal` throws |
| Pricing.PriceItem | backend/src/quotation/quotation.service.ts:21-33 | an item is priced iff its unit price and tax are numerals, else it fails with that error; totalPrice reads back as round2(qty·unitPrice + tax), a missing tax counting 0; a missing description is stored as "" and a missing tax as "0.00"; name, quantity and unit price are copied |
| Folds.MapAllSpec | backend/src/quotation/quotation.service.ts:21-34 | a map that throws gives one result per element in order, or fails with the first failing element's error |
| Pricing.PriceItemsRows | backend/src/quotation/quotation.service.ts:21-34 | the rows exist iff every item prices; there is one row per item, in order, or the first failing item's error |
| Pricing.SumOfCents | backend/src/quotation/quotation.service.ts:36-37 | the reduce over amounts that each read back as whole cents is exactly the sum of those cents |
| Pricing.PricedRowsRead | backend/src/quotation/quotation.service.ts:32-37 | each stored totalPrice reads back as its item's rounded cents |
| Pricing.PrintCents | backend/src/quotation/quotation.service.ts:38 | a sum in cents printed with toFixed(2) reads back as the same cents |
| Pricing.PriceTotal | backend/src/quotation/quotation.service.ts:21-38 | create can price the items iff every item prices; totalAmount is toFixed(2) of the sum of the rounded item totals and reads back as that many cents |
| Folds.SumByAppend | backend/src/quotation/quotation.service.ts:36-37 | a sum over a concatenation is the sum of the two sums |
| Folds.SumByPermutation | backend/src/quotation/quotation.service.ts:36-38 | a sum does not depend on the order of the summands |
| Pricing.PriceablePermutation | backend/src/quotation/quotation.service.ts:21-34 | whether items can be priced does not depend on their order |
| Pricing.PriceOrderIndependent | backend/src/quotation/quotation.service.ts:21-38 | reordering the items changes neither whether create can price them nor totalAmount |
| Pricing.PriceNoItems | backend/src/quotation/quotation.service.ts:21-38 | an empty item list is priced, with no rows and totalAmount "0.00" |
| Pricing.ReadCents | backend/src/quotation/quotation.service.ts:23-24 | a numeral `a.bc` is read as abc cents |
| Pricing.PriceItemInCents | backend/src/quotation/quotation.service.ts:21-32 | for a price and a tax given in cents, the stored totalPrice is exactly qty·price + tax |
| Quotations.ParseStatus | backend/src/quotation/quotation.service.ts:89 | a status string is accepted only as the enum value it names |
| Quotations.ParseStatusName | backend/src/quotation/quotation.service.ts:89 | every enum value's name is accepted, as that value |
| Folds.IndexWhere | backend/src/quotation/quotation.service.ts:74-78 | the search finds an index iff some element matches, and then the first matching one |
| Folds.Filter | backend/src/quotation/quotation.service.ts:127 | a filter keeps each matching element as often as it occurs and drops every other element |
| Quotations.IndexOf | backend/src/quotation/quotation.service.ts:74-78 | findUnique finds a row iff one has the id, and then a row with that id |
| Quotations.IndexOfUnique | backend/src/quotation/quotation.service.ts:74-78 | with unique ids, the row found is the one with that id |
| Quotations.RemoveAt | backend/src/quotation/quotation.service.ts:110 | the delete drops exactly the k-th row and keeps the others in order |
| Quotations.RemoveAtKeepsOthers | backend/src/quotation/quotation.service.ts:110 | after the delete, the remaining rows are exactly those with another id, still with unique ids |
| Quotations.ResponsesOf | backend/src/quotation/quotation.service.ts:76 | the included responses are the quotation's response rows, each as often as it is stored, and no other rows |
| Quotations.ResponsesNotOf | backend/src/quotation/quotation.service.ts:110 | the response rows left are those of other quotations, each as often as it was stored, and no row of the deleted quotation is left (this assumes the schema deletes responses with their quotation) |
| Quotations.Owned | backend/src/quotation/quotation.service.ts:127 | `where: { adminId }` keeps each of the admin's quotations, as often as it is stored, and no other row |
| Quotations.CountStatus | backend/src/quotation/quotation.service.ts:160-168 | a status count is the number of rows with that status (the multiplicity of the status in the column) and at most the number of rows |
| Quotations.Statuses | backend/src/quotation/quotation.service.ts:160-168 | the status column: one entry per row, the row's status |
| Quotations.CountThreeStatuses | backend/src/quotation/quotation.service.ts:159-168 | pending + approved + rejected is at most the total |
| Quotations.NewestFirst | backend/src/quotation/quotation.service.ts:129 | `orderBy: { createdAt: 'desc' }` is a newest-first permutation of the rows |
| Folds.InsertDescending | backend/src/quotation/quotation.service.ts:129 | inserting into a descending list keeps it descending and adds exactly that element |
| Folds.SortDescending | backend/src/quotation/quotation.service.ts:129 | the sort is descending by key and a permutation of its input |
| Quotations.Window | backend/src/quotation/quotation.service.ts:130-131 | `skip` then `take`: at most take rows, the consecutive rows from position skip, nothing once skip ≥ length |
| Quotations.WindowKeepsOrder | backend/src/quotation/quotation.service.ts:129-131 | a page of a newest-first list is newest first |
| Quotations.WindowElements | backend/src/quotation/quotation.service.ts:130-131 | a page holds only rows of its list |
| Quotations.PrefixIsNewest | backend/src/quotation/quotation.service.ts:171-174 | in a newest-first list, no row outside the first k rows is newer than a row inside them |
| Quotations.AppendKeepsInvariant | backend/src/quotation/quotation.service.ts:40-53 | inserting a row with the next id and a matching total keeps ids unique and below the counter, and totals matching their items |
| Quotations.ReplaceKeepsInvariant | backend/src/quotation/quotation.service.ts:86-92 | rewriting a row without touching its id, items or total keeps the invariant |
| Quotations.RemoveKeepsInvariant | backend/src/quotation/quotation.service.ts:110 | deleting a row keeps the invariant |
| Quotations.PricedQuotationMatches | backend/src/quotation/quotation.service.ts:36-53 | the stored totalAmount is the priced total of the stored items |
| Quotations.QuotationStore.constructor | backend/src/quotation/quotation.service.ts:15-18 | the store starts empty and valid |
| Quotations.QuotationStore.Create | backend/src/quotation/quotation.service.ts:20-71 | an unpriceable item, a rejected date or a body without `adminId` (MissingOwner) changes nothing, with that error; otherwise exactly one quotation is appended: PENDING, the next id, the body's admin, no validity date when none was sent, the priced rows and total. The audit row CREATE_QUOTATION with the total is appended only if the email call returns, else `create` throws; responses are untouched |
| Quotations.QuotationStore.FindOne | backend/src/quotation/quotation.service.ts:73-80 | NotFound iff no row has the id; otherwise that row and exactly its responses, each as often as it is stored |
| Quotations.QuotationStore.Update | backend/src/quotation/quotation.service.ts:82-104 | NotFound, or a status or date the database rejects, changes nothing; otherwise only status (when truthy) and validityDate (when truthy) of that row are written, items and totalAmount kept, and one UPDATE_QUOTATION row listing the body's keys is appended |
| Quotations.QuotationStore.Remove | backend/src/quotation/quotation.service.ts:106-122 | NotFound changes nothing; otherwise exactly that quotation is deleted, then the response rows left are those of other quotations (each as often as before), and one DELETE_QUOTATION row with the deleted row's admin is appended; the deleted responses and the kept audit rows follow the schema's assumed delete rules |
| Quotations.QuotationStore.PublicView | backend/src/quotation/quotation.service.ts:139-156 | NotFound changes nothing; otherwise it returns the quotation unchanged and appends exactly one PENDING response with no ip or agent |
| Quotations.QuotationStore.ListForAdmin | backend/src/quotation/quotation.service.ts:124-137 | the page is exactly the rows skip to skip + take of the admin's quotations sorted newest first: only the admin's quotations, newest first, at most take of them and exactly min(take, count − skip) when skip ≤ count; count is all the admin's quotations regardless of paging |
| Quotations.QuotationStore.AdminDashboardStats | backend/src/quotation/quotation.service.ts:158-177 | total is the admin's quotation count; pending, approved and rejected are the numbers of the admin's quotations with each status, and their sum is at most total; recent is the first page of five of ListForAdmin: min(5, total) of the admin's quotations, newest first, none older than an admin quotation left out |
| QuotationExpiry.Sweep | backend/src/cron/quotation-expiry.cron.ts:18-26 | the table after updateMany: the same length, each row passed through the update in place |
| QuotationExpiry.ExpiringCount | backend/src/cron/quotation-expiry.cron.ts:18-30 | the reported count is at most the number of rows |
| QuotationExpiry.ExpireChangesIff | backend/src/cron/quotation-expiry.cron.ts:18-26 | a row changes iff it is PENDING with a validity date before now, and then becomes EXPIRED; a non-PENDING row or one with no date is unchanged |
| QuotationExpiry.SweepWritesOnlyStatus | backend/src/cron/quotation-expiry.cron.ts:23-25 | only the status field is written; a row's status changes iff the `where` selects it |
| QuotationExpiry.SweepCount | backend/src/cron/quotation-expiry.cron.ts:18-30 | the reported count is the number of rows that changed |
| QuotationExpiry.SweptSelectsNothing | backend/src/cron/quotation-expiry.cron.ts:18-22 | after a sweep no row is selected any more |
| QuotationExpiry.SweepIdempotent | backend/src/cron/quotation-expiry.cron.ts:18-26 | a second sweep with the same now changes nothing and counts 0 |
| QuotationExpiry.SweepKeepsInvariant | backend/src/cron/quotation-expiry.cron.ts:23-25 | the sweep keeps ids, items and totals, so the store stays valid |
| QuotationExpiry.CheckExpiredQuotations | backend/src/cron/quotation-expiry.cron.ts:12-34 | a database failure is caught, reported and leaves the table as it was; otherwise the loop leaves exactly the swept table and reports the number of selected rows |
| Auth.HashCompare | backend/src/auth/auth.service.ts:29-63 | a password matches a hash iff the hash was made from it, whatever the salt |
| Auth.EmailIndex | backend/src/auth/auth.service.ts:56-58 | findUnique by email finds a row iff one has that email, and then that row |
| Auth.IdIndex | backend/src/auth/auth.service.ts:96-98 | findUnique by id finds a row iff one has that id, and then that row |
| Auth.EmailIndexUnique | backend/src/auth/auth.service.ts:56-58 | in a valid table the row found by email is the only one with it |
| Auth.IdIndexUnique | backend/src/auth/auth.service.ts:96-98 | in a valid table the row found by id is the only one with it |
| Auth.RewriteKeepsValid | backend/src/auth/auth.service.ts:71-74 | an update that keeps a row's id and email keeps emails and ids unique |
| Auth.RegisterStep | backend/src/auth/auth.service.ts:27-49 | register keeps emails and ids unique |
| Auth.RegisterStoresHash | backend/src/auth/auth.service.ts:27-49 | a taken email changes nothing; otherwise one row is appended with the next id, email and name, a hash that matches exactly the given password, no tokens; the response carries only id, email and name; a failed welcome email throws with the row kept |
| Auth.LoginStep | backend/src/auth/auth.service.ts:54-85 | login keeps the table valid |
| Auth.LoginFailsAlike | backend/src/auth/auth.service.ts:56-63 | login fails iff no user has that email and password, always with the same 'Invalid credentials' and without writing |
| Auth.LoginSetsSession | backend/src/auth/auth.service.ts:65-80 | a successful login stores the returned refresh token and the login time in that row and nothing else; the refresh token names the user, the access token the user and email; only id, email and name are returned |
| Auth.RefreshNeedsStoredToken | backend/src/auth/auth.service.ts:90-111 | an empty token is a BadRequest; refresh succeeds iff the token verifies and equals the refresh token stored for its subject; the new access token names that user and email |
| Auth.LoginThenRefresh | backend/src/auth/auth.service.ts:65-106 | the refresh token of a login keeps refreshing until it expires: nothing rotates it |
| Auth.LogoutStep | backend/src/auth/auth.service.ts:116-129 | logout keeps the table valid |
| Auth.LogoutRevokes | backend/src/auth/auth.service.ts:116-129 | logout succeeds iff the token verifies and names a user; any failure is 'Invalid token' and writes nothing; afterwards no token of that user refreshes |
| Auth.ForgotStep | backend/src/auth/auth.service.ts:134-156 | forgotPassword keeps the table valid |
| Auth.ForgotStoresResetToken | backend/src/auth/auth.service.ts:134-156 | an unknown email is a BadRequest and changes nothing; otherwise only the row's reset token is written, one that verifies for the user for exactly fifteen minutes; a failed email throws with the token kept |
| Auth.ResetStep | backend/src/auth/auth.service.ts:161-194 | resetPassword keeps the table valid |
| Auth.ResetNeedsStoredToken | backend/src/auth/auth.service.ts:161-194 | reset succeeds iff the token verifies and equals the stored reset token; then only the hash (of the new password) and the cleared reset token change; a failure is Unauthorized and writes nothing |
| Auth.ResetSingleUse | backend/src/auth/auth.service.ts:175-187 | presenting a used reset token again fails, at any time |
| Auth.ForgotThenReset | backend/src/auth/auth.service.ts:140-187 | the token forgotPassword stores resets the password within fifteen minutes, and the new password then logs in |
| Auth.ChangeStep | backend/src/auth/auth.service.ts:199-222 | changePassword keeps the table valid |
| Auth.ChangeOnlyPassword | backend/src/auth/auth.service.ts:199-222 | an unknown email or wrong old password fails with its own message and writes nothing; otherwise only the hash changes (tokens kept), the new password logs in and a different old one no longer does |
| Auth.AuthService.constructor | backend/src/auth/auth.service.ts:17-22 | the service starts with an empty, valid table |
| Auth.AuthService.Register | backend/src/auth/auth.service.ts:27-49 | the method leaves the table and returns exactly what RegisterStep gives, and keeps it valid |
| Auth.AuthService.Login | backend/src/auth/auth.service.ts:54-85 | the method's new table and result are LoginStep's |
| Auth.AuthService.RefreshToken | backend/src/auth/auth.service.ts:90-111 | the method writes nothing and returns RefreshStep's result |
| Auth.AuthService.Logout | backend/src/auth/auth.service.ts:116-129 | the method's new table and result are LogoutStep's |
| Auth.AuthService.ForgotPassword | backend/src/auth/auth.service.ts:134-156 | the method's new table and result are ForgotStep's |
| Auth.AuthService.ResetPassword | backend/src/auth/auth.service.ts:161-194 | the method's new table and result are ResetStep's |
| Auth.AuthService.ChangePassword | backend/src/auth/auth.service.ts:199-222 | the method's new table and result are ChangeStep's |
| Auth.AuthService.ValidateUser | backend/src/auth/auth.service.ts:227-229 | a user is found iff one has the id, and then that user |
| Validation.ItemOf | backend/src/quotation/dto/create-item.dto.ts:4-29 | an item that passed validation has a non-empty name and unit price and a quantity ≥ 1; description and tax are absent exactly when not sent |
| Validation.ItemJsonValid | backend/src/quotation/dto/create-item.dto.ts:6-28 | an item body is accepted iff name and unit price are non-empty and quantity ≥ 1; the service reads back the item sent |
| Validation.UnitPriceNotNumeric | backend/src/quotation/dto/create-item.dto.ts:21-23 | a unit price holding a character no numeral has passes validation and then makes pricing fail |
| Validation.QuotationJsonValid | backend/src/quotation/dto/create-quotation.dto.ts:16-34 | a quotation body is accepted iff the name is non-empty, the email and the date (if sent) have the right format, and every item is valid |
| Validation.NoItemsAccepted | backend/src/quotation/dto/create-quotation.dto.ts:31-34 | an empty item array is accepted |
| Validation.QuotationItems | backend/src/quotation/dto/create-quotation.dto.ts:31-34 | every item of an accepted quotation has a name and a quantity ≥ 1 |
| Validation.RegisterJsonValid | backend/src/auth/dto/auth.dto.ts:9-26 | a registration is accepted iff the email is valid, the password's isLength count (selectors not counted) is ≥ 6 and the name is non-empty |
| Validation.RegisterNameUntyped | backend/src/auth/dto/auth.dto.ts:25-26 | the name is checked only for emptiness: a number passes |
| Validation.LoginJsonValid | backend/src/auth/dto/auth.dto.ts:34-42 | a login is accepted iff the email is valid and the password is non-empty, of any length |
| Validation.ForgotJsonValid | backend/src/auth/dto/auth.dto.ts:50-51 | a forgot-password body is accepted iff the email is valid |
| Validation.ResetJsonValid | backend/src/auth/dto/auth.dto.ts:59-69 | a reset body is accepted for any token string iff the new password's isLength count is ≥ 6 |
| Validation.ChangeJsonValid | backend/src/auth/dto/auth.dto.ts:77-94 | a change body is accepted for any old password iff the email is valid and the new password's isLength count is ≥ 6 |
| Validation.SelectorNotCounted | backend/src/auth/dto/auth.dto.ts:68-93 | a six-character new password that contains a presentation selector is refused by both the reset and the change body |
| JsStrings.LengthMeasures | backend/src/auth/dto/auth.dto.ts:18 | isLength's count ≤ the character count ≤ the UTF-16 length; they agree on plain text, a selector makes isLength shorter, and an all-astral string is twice as long in UTF-16 |
| FormSchemas.RegisterSchemaMeetsDto | frontend/src/schemas/auth.ts:8-12 | a name the register form accepts is non-empty; a plain password it accepts meets @MinLength(6); with a plain password and an email check at least as strict, the backend accepts the whole body |
| FormSchemas.AstralPasswordPassesFormOnly | frontend/src/schemas/auth.ts:8-12 | a password of three astral characters passes the form (six UTF-16 units) but not the backend (three characters) |
| FormSchemas.DtoPasswordMeetsForm | frontend/src/schemas/auth.ts:11 | a password the backend accepts is at least six UTF-16 units long, so it passes the form |
| FormSchemas.RegisterSchemaStricter | frontend/src/schemas/auth.ts:9 | a one-character name passes the backend, and it passes the form iff it is an astral character (two UTF-16 units) |
| FormSchemas.LoginSchemaMatchesDto | frontend/src/schemas/auth.ts:3-6 | with the same email check, the login form and LoginDto accept the same credentials |
| AuthStore.RefreshCookie | frontend/src/store/auth.ts:20-24 | the refresh cookie holds the token for seven days, secure and same-site strict |
| AuthStore.Store.constructor | frontend/src/store/auth.ts:15-16 | no user and no access token at start |
| AuthStore.Store.SetAuth | frontend/src/store/auth.ts:18-25 | user, access token and refresh cookie are exactly the given ones |
| AuthStore.Store.SetAccessToken | frontend/src/store/auth.ts:27 | only the access token changes |
| AuthStore.Store.Logout | frontend/src/store/auth.ts:29-32 | the state is signed out whatever it was, so logging out twice is the same as once |
| Pagination.PageCount | frontend/src/components/dashboard/Pagination.tsx:5 | no pages iff no rows; otherwise (pages − 1)·50 < total ≤ pages·50 |
| Pagination.PageCountMinimal | frontend/src/components/dashboard/Pagination.tsx:5 | no smaller number of pages of fifty holds the rows |
| Pagination.Labels | frontend/src/components/dashboard/Pagination.tsx:9-15 | one button per page |
| Pagination.NoRowsNoButtons | frontend/src/components/dashboard/Pagination.tsx:5-9 | no rows, no buttons |
| Pagination.LabelsOneToPages | frontend/src/components/dashboard/Pagination.tsx:9-15 | the labels increase strictly and are exactly 1 to the page count |
| Navigation.InexactIsPrefix | frontend/src/components/dashboard/DashboardLayout.tsx:29 | without `exact`, an entry is active iff its path is a prefix of the current path |
| Navigation.ExactImpliesInexact | frontend/src/components/dashboard/DashboardLayout.tsx:27-30 | an entry active under the exact test is active under the prefix test |
| Navigation.ActiveItems | frontend/src/components/dashboard/DashboardLayout.tsx:54-55 | the highlighted entries are exactly the menu entries that isActive accepts |
| Navigation.SettingsHighlightsOnlySettings | frontend/src/components/dashboard/DashboardLayout.tsx:13-30 | on the settings page and below it only Settings is highlighted, not Dashboard |
| Navigation.HomeHighlightsOnlyDashboard | frontend/src/components/dashboard/DashboardLayout.tsx:13-30 | "/dashboard" with or without a trailing slash highlights only Dashboard |
| Navigation.ListPageHighlightsNothing | frontend/src/components/dashboard/DashboardLayout.tsx:13-30 | the quotation list page highlights no entry |

## Left out

- Money: decimal.js's 20-significant-digit precision limit, and its special values (`Infinity`, `NaN`, hexadecimal, binary and octal numerals) are not modelled. Nor are underscores between digits (`"1_000"`), which decimal.js 10.4 and later accepts and drops; the model rejects them (`Money.ParseDecimal`). The arithmetic is exact, which agrees with decimal.js for amounts of fewer than 20 significant digits.
- Validation.ItemOf: a quantity is read as an integer; JavaScript's 2^53 limit on exact integers is not modelled.
- Auth: real JWT signatures, jsonwebtoken's `iat` and clock tolerance, and bcrypt's 72-byte password limit are abstracted (see Abstractions). `Verify` checks only the expiry.
- Auth: a missing refresh token (`undefined`) is treated like the empty string; both are refused before verification.
- Auth: `lastLogin` is the clock parameter in seconds. The source stores a millisecond `Date`.
- Email delivery (backend/src/email/email.service.ts) is I/O. Each send is one boolean parameter: delivered or thrown. `sendQuotationEmail` is not defined in that service; `create` only records whether it returned.
- Logging, including the expiry job's log lines, is left out. The job's count is its return value.
- Owner checks, `clientRespond` and the controller's other routes (backend/src/quotation/quotation.controller.ts) are not part of the service, so they are not modelled.
- Quotations.QuotationStore.FindOne: the `emails` relation is not modelled; it returns the quotation with its items and responses.
- Quotations.QuotationStore.Update: the quotation row is returned together with its items; Prisma returns it without them. A `validityDate` or `status` of `""` or `null` is not written, as the truthiness test in the source says.
- Quotations.QuotationStore.Update: the audit details list the body's keys in the order given by the `keys` parameter. JavaScript's `Object.keys` order is not modelled.
- Quotations.QuotationStore.ListForAdmin: `take` and `skip` are natural numbers. Prisma's negative `take` (counting from the end) is not modelled, and the order of quotations with the same `createdAt` is the model's, not the database's.
- Quotations: the Prisma schema is not part of this model, so its rules are assumptions here: items and emails are stored inside their quotation row, and column types are not modelled.
- Quotations.QuotationStore.Create: that a missing `adminId` is refused assumes the schema's owner column is required. With a nullable owner the row would be stored without an owner, and neither listForAdmin nor the stats would show it. A sent `adminId` that names no user is stored as given; a foreign-key check is not modelled. When the date is invalid and the owner is missing in one body, the model reports the date; Prisma's order between the two is not modelled.
- Quotations.QuotationStore.AdminDashboardStats: the recent rows are ListForAdmin's rows and carry their items. The source's `recent` query has no `include: { items: true }`, so Prisma returns those rows without items.
- Quotations.QuotationStore.Remove: that the quotation's responses are deleted with it (onDelete: Cascade) and that its audit rows are kept (no cascade from `quotationId`, or SetNull) are assumed onDelete rules of the schema. The model states what the store looks like under these rules; with other rules the delete would fail or keep other rows.
- Validation.MinLength: a Dafny character is a Unicode scalar value, so a JSON string holding a lone surrogate (`"\ud800"`) cannot be written; isLength counts such a unit as one character, and the model does not cover that input.
- FormSchemas.RegisterSchemaMeetsDto: the password half holds only for plain passwords; `FormSchemas.AstralPasswordPassesFormOnly` shows a password the form accepts and the backend refuses, and a password with presentation selectors can be refused the same way. Lone surrogates typed into the form are not modelled, as for Validation.MinLength.
- Auth.LoginFailsAlike: LoginDto's password has only @IsNotEmpty, so a JSON number or object passes validation and reaches `bcrypt.compare`, which throws a non-HTTP error (a 500). The model's password is a string, so it does not cover that path.
- Auth.RegisterStep: RegisterDto's name has only @IsNotEmpty (`Validation.RegisterNameUntyped`), so a non-string name reaches Prisma's `create`, which throws a non-HTTP error. The model's name is a string, so it does not cover that path.
- Promise.all, transactions and concurrent requests are left out: every operation acts on one snapshot of the tables.
- Pagination: a negative `total` cannot occur, since it is a count, so `total` is a natural number.
- The sidebar's `collapsed` and `mobileOpen` state, icons and rendering are left out.
- frontend/src/lib/axios.ts (the refresh queue shared by concurrent requests) and the floating-point totals of QuotationPreview.tsx are not part of this model.
- client-action.dto.ts and update-quotation.dto.ts are not modelled as validators. UpdateQuotationDto's fields are all optional and `status` is not validated; `update` handles it (Quotations.ParseStatus).
- The js-cookie library's cookie jar is one field holding the `refresh_token` cookie; other cookies are not modelled.
