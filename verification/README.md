# Inventory management: order store and front-end rules, in Dafny

This project models the core of an inventory-management application. The
back end is an Express server over SQLite. The front end is React.

**The order store (`db/server.js`).** The model covers three tables and the routes over them:

- the tables Pedidos, ItensPedido and Clientes;
- the routes POST, PUT, DELETE and GET `/pedidos[/:id]`;
- DELETE `/clientes/:id`.

Each route is a pure function from a database value to a new database and a
reply: 200/201, 400, 404 or 500. The central invariant is that every order's
`total` equals the sum of `quantidade × precoUnitario` over the item rows
that name it (`OrderStore.TotalsAgree`, inside `OrderStore.Valid`).

Create and delete are proved to keep the invariant. Update keeps it when its
key was already handed out or it sends no items; the case it misses is
described below. GET of an order is proved to show exactly its stored rows,
with a total equal to their sum.

The model follows what the code does:

- Client and product ids are never looked up.
- PUT and DELETE on an absent key answer 200.
- PUT with `itens: []` leaves items and total alone. `!itens` lets an empty
  array past the 400 guard, and `itens.length` then skips the replacement.
- PUT with a status outside `Pendente`/`Concluído` fails the CHECK constraint
  on an existing row. The reply is 500 and neither column is written. The
  item replacement, a separate statement, still runs.
- DELETE `/clientes/:id` never removes a row. It answers 400 while some order
  names the client, and otherwise sets `ativo = 0`.

PUT has no existence check, so items sent for a key that no order has are
inserted anyway. `OrderRoutes.UpdateBeforeCreateBreaksTotals` shows the
consequence. Items are PUT for key 1 on an empty database. The next POST
receives key 1 from AUTOINCREMENT and adopts those rows, and the new order's
total no longer agrees with them. `OrderRoutes.UpdateOrderValid` keeps the
invariant exactly when the key was already handed out, or no items are sent.
This is the second entry under "## Findings". `OrderRoutes.UpdateExisting` is
the guarded route, which answers 404 for an absent key.

**The front-end rules:**

- the supplier list (`useSuppliers.ts`) and its next-id rule (`Suppliers.tsx`);
- the route guard (`PrivateRoute.tsx`);
- the item list of the order form (`FormPedidos.tsx`);
- the amount sanitiser, the toggling selectors and the payload of the
  transaction form (`FormTransacao.tsx`);
- the CPF/CNPJ and telephone masks (`ListClientes.tsx`, repeated in
  `FormClientes.tsx`), with the client-form handlers.

The masks are written as the chains of `String.prototype.replace` calls the
source makes. A leftmost-first matcher for fixed-width patterns (`Regex`)
implements them. Each chain is proved equal to a shape read off the digits:
where every separator lands, for each number of digits.

Files:

- `wrappers.dfy`: `Option`.
- `order_store.dfy`: tables, sums, row selections, the invariant.
- `order_routes.dfy`: the routes.
- `text.dfy`, `regex.dfy`, `masks.dfy`: digits, replacements, masks.
- `client_form.dfy`, `order_form.dfy`, `transaction_form.dfy`,
  `suppliers.dfy`, `private_route.dfy`: the front-end rules.

## Model

| member | source | states |
|---|---|---|
| OrderStore.ParseStatus | db/server.js:370 | only the two texts of the CHECK constraint are statuses, and each reads back as itself |
| OrderStore.EmptyDb | db/server.js:365-393 | newly created order tables hold no orders and no items, both AUTOINCREMENT counters start at 1, clients and products are as given, and the invariant holds |
| OrderStore.RowsOf | db/server.js:457-462 | the item query for an order returns exactly the rows that name it |
| OrderStore.RowsNotOf | db/server.js:613 | `DELETE FROM ItensPedido WHERE pedidoId = ?` leaves exactly the rows naming other orders |
| OrderStore.NewRows | db/server.js:497-508 | one inserted row per payload entry, with consecutive keys, tied to the order, and product, quantity and price copied verbatim |
| OrderStore.RowsOfRowsNotOf | db/server.js:613 | deleting one order's rows leaves it with none and every other order with its own |
| OrderStore.RowsAfterReplace | db/server.js:567-592 | after delete-then-insert, the order's rows are exactly the new ones and other orders keep theirs |
| OrderRoutes.CreateOrder | db/server.js:478-525 | 400, with nothing written, exactly when clienteId is falsy or itens is missing or empty; otherwise 201 |
| OrderRoutes.CreateOrderEffect | db/server.js:480-513 | a created order is Pendente, stamped with the request time, for the given client, with total Σ quantidade×precoUnitario; one row per entry is appended; nothing else changes |
| OrderStore.Total | db/server.js:495-499 | Σ quantidade×precoUnitario accumulated left to right; see AccumulateTotal, which computes it with the route's loop, and TotalAppend |
| OrderStore.TotalAppend | db/server.js:495-499 | the sum over two payloads joined is the sum of their sums, so accumulating entry by entry gives the same total |
| OrderRoutes.AccumulateTotal | db/server.js:495-499 | the running sum over the payload equals the order total |
| OrderRoutes.CreateOrderRows | db/server.js:494-502 | the new key is unused, the new order owns exactly the payload's rows, and other orders keep their rows |
| OrderRoutes.CreateOrderKeepsTotals | db/server.js:494-513 | after a create, every order's total still equals the sum over its rows |
| OrderRoutes.CreateOrderValid | db/server.js:478-525 | create keeps the whole database invariant |
| OrderRoutes.UpdateOrder | db/server.js:528-608 | never 404; 400 with nothing written exactly when no field is given; 500 exactly when a bad status is written to an existing order |
| OrderRoutes.UpdateOrderEffect | db/server.js:537-606 | no order appears or disappears; other orders are untouched; only the named columns are patched; items and total stay as they were unless a non-empty item array is sent |
| OrderRoutes.ReplaceItems | db/server.js:567-592 | the delete-then-insert of a PUT with items; see UpdateOrderRows and UpdateOrderKeepsTotals |
| OrderRoutes.UpdateOrderRows | db/server.js:567-592 | a non-empty item array replaces the order's rows with exactly the payload, and other orders keep theirs |
| OrderRoutes.UpdateOrderKeepsTotals | db/server.js:567-598 | every update keeps each existing order's total equal to the sum over its rows |
| OrderRoutes.UpdateOrderValid | db/server.js:528-608 | an update keeps the invariant when its key was already handed out or it sends no items |
| OrderRoutes.UpdateStatusIdempotent | db/server.js:546-557 | writing the same status twice is writing it once |
| OrderRoutes.UpdateBeforeCreateBreaksTotals | db/server.js:567-592 | items PUT for a key not yet handed out are adopted by the next create, whose total then disagrees with its rows |
| OrderRoutes.UpdateExisting | db/server.js:528-608 | the guarded PUT: 404 with nothing written exactly when the key is absent and the body is not refused; on an existing key it behaves as the route does |
| OrderRoutes.UpdateExistingValid | db/server.js:567-592 | the guarded PUT keeps the invariant for every key |
| OrderRoutes.UpdateExistingBeforeCreate | db/server.js:567-592 | on the trace that breaks the totals, the guarded PUT answers 404 and the later POST's total agrees with its rows |
| OrderRoutes.DeleteOrder | db/server.js:611-626 | always 200; the key and every row naming it are gone; other orders, rows and tables are unchanged |
| OrderRoutes.DeleteOrderRows | db/server.js:613-621 | after a delete the order has no rows and every other order keeps its own |
| OrderRoutes.DeleteOrderIdempotent | db/server.js:611-626 | a second delete of the same key changes nothing |
| OrderRoutes.DeleteOrderValid | db/server.js:611-626 | delete keeps the whole database invariant |
| OrderRoutes.ProdutoNome | db/server.js:458-460 | the LEFT JOIN gives the product's `nome` when the product exists, and NULL exactly when it does not |
| OrderRoutes.ClienteNome | db/server.js:445-447 | the LEFT JOIN gives the client's `nome` when the client exists, and NULL exactly when it does not |
| OrderRoutes.GetOrder | db/server.js:441-475 | 404 exactly for an absent key; otherwise the order with its client's joined name, and exactly its rows in table order, each with its product's joined name; on a consistent database the total equals the sum over the rows shown |
| OrderRoutes.CreateThenGet | db/server.js:441-525 | a created order reads back Pendente, for its client, with the payload's items and their total |
| OrderRoutes.UpdateThenGet | db/server.js:567-598 | after an update with items, the order reads back exactly those items and their total |
| OrderRoutes.DeleteThenGet | db/server.js:453-454 | after a delete, the key reads back 404 |
| OrderRoutes.DeleteClient | db/server.js:733-753 | 400 exactly when some order names the client; otherwise the client is marked inactive; no client row is removed and orders, items and products are untouched |
| OrderRoutes.ClientFreedAfterOrdersDeleted | db/server.js:737-748 | once all of a client's orders are deleted, deleting the client succeeds |
| OrderRoutes.DeleteClientDeclaredSchema | db/server.js:629-636 | against the table as declared, without `ativo`: 400 when orders exist, otherwise 500, and nothing changes |
| OrderRoutes.DeclaredSchemaNeverDeactivates | db/server.js:744-749 | with the declared table no client can be deactivated, while the route with the column succeeds and deactivates |
| Text.Digits | src/components/ListClientes.tsx:38 | `replace(/\D/g, '')` yields digits only, never a longer text |
| Text.DigitsAppend | src/components/ListClientes.tsx:38 | `replace(/\D/g, '')` works character by character: the digits of a concatenation are the digits of each part, in order |
| Text.DigitsOfDigits | src/components/ListClientes.tsx:38 | every digit is kept: a digit string comes back unchanged |
| Text.DigitsOfNoDigits | src/components/ListClientes.tsx:38 | every non-digit is dropped: text without digits comes back empty |
| Text.DigitsIdempotent | src/components/ListClientes.tsx:38 | stripping non-digits twice is stripping once |
| Regex.FirstMatch | src/components/ListClientes.tsx:40 | an unanchored search reports the leftmost match, and none exactly when nothing matches |
| Regex.Search | src/components/ListClientes.tsx:42 | a `^` pattern matches only at the start; otherwise the leftmost match is taken |
| Regex.ReplaceFirst | src/components/ListClientes.tsx:40-42 | a replace without `g` rewrites only the leftmost match, and returns the text unchanged when there is none |
| Regex.FirstTail | src/components/ListClientes.tsx:40 | a `$`-anchored digit run matches at the leftmost start from which only digits follow, in the allowed count |
| Regex.ReplaceTail | src/components/ListClientes.tsx:51-53 | the end-anchored replacement puts the separator after the first group of the leftmost match, or changes nothing |
| Masks.CpfMaskShape | src/components/ListClientes.tsx:40 | up to 11 digits read `ddd.ddd.ddd-dd`, cut short where the digits end |
| Masks.CnpjMaskShape | src/components/ListClientes.tsx:42 | 12 or more digits read `dd.ddd.ddd/dddd-dd…`, with the hyphen only from the 13th digit on |
| Masks.FormatCpfCnpj | src/components/ListClientes.tsx:37-45 | the CPF/CNPJ mask as the chain of replacements; characterised by CpfCnpjShape, CpfCnpjKeepsDigits, CpfCnpjSeparators and CpfCnpjSlash |
| Masks.CpfCnpjShape | src/components/ListClientes.tsx:37-45 | the CPF/CNPJ mask equals the CPF shape up to 11 digits and the CNPJ shape beyond |
| Masks.CpfCnpjSlash | src/components/ListClientes.tsx:39-42 | the mask shows `/` exactly when there are more than 11 digits: only the CNPJ branch inserts one |
| Masks.FormatContato | src/components/ListClientes.tsx:47-56 | the telephone mask as the chain of replacements; characterised by ContatoShape, ContatoKeepsDigits and ContatoSeparators |
| Masks.ContatoShape | src/components/ListClientes.tsx:47-56 | the telephone mask equals the shape read off the digits: area code, then a hyphen placed by digit count |
| Masks.AreaCodeOf | src/components/ListClientes.tsx:49 | from three digits on, the first two are put in parentheses followed by a space |
| Masks.CpfCnpjKeepsDigits | src/components/ListClientes.tsx:38-42 | the masked CPF/CNPJ holds exactly the input's digits, in order |
| Masks.ContatoKeepsDigits | src/components/ListClientes.tsx:48-54 | the masked telephone holds exactly the input's digits, in order |
| Masks.CpfCnpjSeparators | src/components/ListClientes.tsx:40-42 | besides digits, only `.`, `/` and `-` are inserted |
| Masks.ContatoSeparators | src/components/ListClientes.tsx:49-53 | besides digits, only `(`, `)`, a space and `-` are inserted |
| Masks.FullCpf | src/components/ListClientes.tsx:40 | 11 digits become `ddd.ddd.ddd-dd`, 14 characters |
| Masks.FullCnpj | src/components/ListClientes.tsx:42 | 14 digits become `dd.ddd.ddd/dddd-dd`, 18 characters |
| Masks.FullMobile | src/components/ListClientes.tsx:48-51 | 11 digits become `(dd) ddddd-dddd`, 15 characters |
| Masks.TenDigitsNoHyphen | src/components/ListClientes.tsx:49-53 | the 11-character test runs on the parenthesised text, so a 10-digit number gets no hyphen |
| Masks.CpfCnpjIdempotent | src/components/FormClientes.tsx:35 | masking an already-masked CPF/CNPJ returns it unchanged |
| Masks.ContatoIdempotent | src/components/FormClientes.tsx:53 | masking an already-masked telephone returns it unchanged |
| Masks.CpfCnpjFits | src/components/FormClientes.tsx:103 | the masked CPF/CNPJ fits the 18-character limit exactly when there are at most 14 digits |
| Masks.ContatoFits | src/components/FormClientes.tsx:111 | the masked telephone fits the 15-character limit exactly when there are at most 11 digits |
| ClientForm.HandleChange | src/components/FormClientes.tsx:29-31 | the named field takes the typed value and every other field is unchanged |
| ClientForm.HandleCpfCnpjChange | src/components/FormClientes.tsx:34-49 | only `cpf_cnpj` changes; it keeps the typed digits, masked as CPF up to 11 digits and CNPJ beyond |
| ClientForm.HandleContatoChange | src/components/FormClientes.tsx:52-61 | only `contato` changes; it keeps the typed digits, masked as a telephone |
| ClientForm.ClearedFieldsStayEmpty | src/components/FormClientes.tsx:8-13 | the form starts from four empty strings, and clearing either masked input leaves it so |
| ClientForm.CpfCnpjChangeStable | src/components/FormClientes.tsx:34-49 | feeding the masked CPF/CNPJ back through the handler leaves the form as it is |
| ClientForm.ContatoChangeStable | src/components/FormClientes.tsx:52-61 | feeding the masked telephone back through the handler leaves the form as it is |
| Suppliers.AddSupplier | src/hooks/useSuppliers.ts:15-17 | the old list with the new supplier appended at the end; length grows by one |
| Suppliers.EditSupplier | src/hooks/useSuppliers.ts:19-21 | the `map` keeps the length; see EditSupplierPointwise for what each entry becomes |
| Suppliers.EditSupplierPointwise | src/hooks/useSuppliers.ts:19-21 | length and order are kept; exactly the entries with the id are replaced |
| Suppliers.EditAbsentSupplier | src/hooks/useSuppliers.ts:20 | editing an id no entry has leaves the list unchanged |
| Suppliers.DeleteSupplier | src/hooks/useSuppliers.ts:23-25 | the `filter` never lengthens the list; see DeleteSupplierKeeps and DeleteSupplierAppend for what stays and in what order |
| Suppliers.DeleteSupplierKeeps | src/hooks/useSuppliers.ts:23-25 | the result holds exactly the entries without the id |
| Suppliers.DeleteSupplierAppend | src/hooks/useSuppliers.ts:24 | the filter works entry by entry: deleting from a concatenation deletes from each part in place, so what remains keeps its relative order |
| Suppliers.DeleteSupplierOrdered | src/hooks/useSuppliers.ts:24 | the entries that remain keep their relative order: strictly increasing ids stay strictly increasing |
| Suppliers.DeleteAbsentSupplier | src/hooks/useSuppliers.ts:24 | deleting an id no entry has leaves the list unchanged |
| Suppliers.DeleteSupplierIdempotent | src/hooks/useSuppliers.ts:24 | deleting twice is deleting once |
| Suppliers.NextId | src/pages/Suppliers.tsx:10 | the new id is 1 for an empty list, else the last entry's id plus one |
| Suppliers.HandleAddSupplier | src/pages/Suppliers.tsx:9-13 | the form fields plus the new id are appended, and the form is reset to empty strings |
| Suppliers.AddKeepsIncreasing | src/pages/Suppliers.tsx:10-11 | strictly increasing ids stay strictly increasing, hence unique, after an add |
| RouteGuard.PrivateRoute | src/components/PrivateRoute.tsx:10-23 | loading shows the indicator whatever the user; no user redirects to `/login`; a required role the user lacks redirects to `/` |
| RouteGuard.ChildrenIff | src/components/PrivateRoute.tsx:10-23 | the children render exactly when not loading, logged in, and the role matches or none is required |
| RouteGuard.NoRoleNoCheck | src/components/PrivateRoute.tsx:19 | an absent or empty required role imposes no check |
| OrderForm.NewForm | src/components/FormPedidos.tsx:35-37 | a new form has no client, no items, and the status the back end gives a new order |
| OrderForm.AddItem | src/components/FormPedidos.tsx:91-93 | appends product 0, quantity 1, price "1,00" at the end |
| OrderForm.ChangeItem | src/components/FormPedidos.tsx:95-99 | changes only the named field of item `index`; length and other items are unchanged |
| OrderForm.RemoveItem | src/components/FormPedidos.tsx:101-103 | the `filter` by index; see RemoveItemInRange and RemoveItemOutOfRange |
| OrderForm.RemoveItemInRange | src/components/FormPedidos.tsx:101-103 | an index in range removes exactly that item, keeps the rest in order, and shrinks the list by one |
| OrderForm.RemoveItemOutOfRange | src/components/FormPedidos.tsx:102 | an index out of range leaves the list unchanged |
| OrderForm.RemoveAfterAdd | src/components/FormPedidos.tsx:91-103 | removing the item just added restores the list |
| OrderForm.PayloadLines | src/components/FormPedidos.tsx:109-116 | the submitted items copy product and quantity and carry the parsed price, one per form item |
| OrderForm.NewFormRefused | src/components/FormPedidos.tsx:109-124 | submitting an untouched new form is refused by the create route, which writes nothing |
| TransactionForm.ValorChars | src/components/FormTransacao.tsx:56 | the filter keeps only digits and commas |
| TransactionForm.ValorCharsAppend | src/components/FormTransacao.tsx:56 | the filter works character by character: the result for a concatenation is the result for each part, in order |
| TransactionForm.ValorCharsKeeps | src/components/FormTransacao.tsx:56 | every digit and comma is kept: text of digits and commas comes back unchanged |
| TransactionForm.ValorCharsDrops | src/components/FormTransacao.tsx:56 | every other character is dropped: text with no digit or comma comes back empty |
| TransactionForm.UpToComma | src/components/FormTransacao.tsx:58 | the first piece of `split(",")` is the longest comma-free prefix |
| TransactionForm.OneCommaPrefix | src/components/FormTransacao.tsx:57-60 | the rebuilt text is the longest prefix with at most one comma and at most two characters after it |
| TransactionForm.SanitiseValor | src/components/FormTransacao.tsx:54-62 | `handleValorChange`'s rewrite of the amount; characterised by SanitiseValorPrefix, SanitiseValorChars and SanitiseValorIdempotent |
| TransactionForm.SanitiseValorPrefix | src/components/FormTransacao.tsx:54-62 | the sanitised amount is the longest prefix of the filtered input with one comma and two decimals at most |
| TransactionForm.SanitiseValorChars | src/components/FormTransacao.tsx:56 | the sanitised amount holds only ASCII digits and commas |
| TransactionForm.SanitiseWithoutComma | src/components/FormTransacao.tsx:57-61 | filtered input without a comma passes through unchanged |
| TransactionForm.SecondCommaDiscarded | src/components/FormTransacao.tsx:58-59 | everything from a second comma on is dropped |
| TransactionForm.SanitiseValorIdempotent | src/components/FormTransacao.tsx:54-62 | sanitising a sanitised amount changes nothing |
| TransactionForm.Toggle | src/components/FormTransacao.tsx:64-72 | selecting the current id clears it; selecting another id selects it |
| TransactionForm.ToggleTwice | src/components/FormTransacao.tsx:64-72 | selecting the same id twice leaves it selected exactly when it was selected before |
| TransactionForm.MakePayload | src/components/FormTransacao.tsx:76-83 | `pedidoId` is left out exactly when no order, or order 0, is selected; the amount is never negative |

## Findings

| source | as written | input that shows it | evidently intended | confidence | as-written member | corrected member |
|---|---|---|---|---|---|---|
| db/server.js:744 | the route sets column `ativo`, but the Clientes table created at lines 629-636 has no such column | a database created by this server, a client with no orders, then DELETE `/clientes/<that id>`: SQLite rejects the UPDATE and the route answers 500 | the client is marked inactive and the route answers 200 | medium, not executed; a database file created earlier with an `ativo` column would behave as intended | OrderRoutes.DeclaredSchemaNeverDeactivates | OrderRoutes.DeleteClient |
| db/server.js:567-592 | PUT with items does not check that the order exists; it deletes and inserts rows for the key regardless, and answers 200 | on an empty database, PUT `/pedidos/1` with one item (2 × 5.0), then POST an order with one item (1 × 3.5): the new order gets key 1, adopts both rows, and stores total 3.5 against rows summing to 13.5 | PUT on a key no order has answers 404 and writes nothing, as GET does at lines 453-454 | medium, not executed | OrderRoutes.UpdateBeforeCreateBreaksTotals | OrderRoutes.UpdateExisting |

## Left out

- Express, CORS, static files, uploads, registration and login: framework and library I/O.
- The single-table CRUD routes for products, suppliers and clients, and the list query builders. Their meaning is SQL text interpreted by SQLite.
- Callback interleavings. Item INSERTs are fire-and-forget, and PUT can answer twice when it updates both columns and items. The model gives the outcome once every statement has run in issue order, with the first reply sent.
- Storage errors. Every 500 that comes from a failing SQLite call other than the CHECK constraint is out of the model, as are missing item fields.
- Foreign keys. SQLite does not enforce them by default, and the routes never check client or product existence.
- Floating point. Prices and totals are exact `real`s, so rounding of FLOAT columns and of JS sums is not modelled. The same goes for `formatPrice` and `handleBlurPrice` in the order form.
- Timestamps. `new Date().toISOString()` is the `now` parameter of `OrderRoutes.CreateOrder`.
- OrderForm.PayloadLines: `parseFloat` of the price text is a parameter, not modelled.
- TransactionForm.MakePayload: `parseFloat` of the amount is a parameter, with `None` standing for NaN.
- TransactionForm.Toggle: `Number(value)` on the selector's text is not modelled; the selected id is given as a number.
- OrderForm.ChangeItem: requires an index inside the list. The form only calls it with the index of a rendered row. An index past the end would leave holes (`undefined` entries) that the item type cannot hold.
- ClientForm.HandleChange: takes one of the four field names. The form only binds it to the name and address inputs; a name outside the form would add a new key.
- Loading a record for editing (the `useEffect` fetches in the forms), navigation and rendering.
