# Restaurant back office: pricing, page rules and user/auth services in Dafny

This project models the parts of the restaurant back-office tool that carry rules of the application's own. The rest of the tool is table-and-dialog screens over REST calls and services that pass straight through to the ORM, and is not modelled.

The model has three parts:

- **Order pricing and line lookup** (the order page and the order-detail page). `getFoodPriceById` and `getFoodNameById` take the first menu item with the id, or fall back to `0` and `"Không xác định"`. `calculateTotal` reduces the lines to the sum of price × quantity. Both pages write these identically, so module `Pricing` defines them once.
- **Page rules** (the order, order-detail, food and employee pages). These are the search filters, the Add/Save enablement tests, the form resets, the status labels, the `handleAddOrder` decision and the copies the employee edit makes of a record.
- **User and auth services** over one users table. `UserStore.UserTable` is a class holding the table as a `seq<User>` plus the next id to assign. Its unique constraints on id, username and email are a class invariant. `Users.UserService` and `Auth.AuthService` are classes whose methods change that table. Password hashing is the user service's `hash`, a function-typed constant that is left uninterpreted.

Modules: `Wrappers` (Option, Result), `Text` (ASCII `toLowerCase`, `includes`, integer `toString`, `Number(s)`), `Seqs` (`filter`, `find`, `findIndex`, subsequence), `Pricing`, `OrderPage`, `OrderDetailPage`, `FoodPage`, `EmployeePage`, `UserStore`, `Users`, `Auth`, and `EmployeeEdit`. `EmployeeEdit` connects the employee page's edit request to the service's update rule.

Modelling choices:

- A searched field is an `Option` where the page guards it with `?.`: an order's id, description, user and user name, a dish's description, and an employee's name and email. The other `Option` fields each have their own reason:
  - `EmployeePage.Employee.password` is `None` when the record has no password key. The list comes without one, and `handleEditEmployee` deletes it.
  - On the order page's add-line form, `OrderPage.NewDetailForm.orderId` is `None` while no order is being viewed (`currentOrderId` starts as `null`, frontend/src/pages/order.js:92). `foodId` is `None` while no dish is chosen (the reset writes `""`, frontend/src/pages/order.js:310).
  - `OrderPage.OrderUser.id` is carried along but never read by the page.
- `Food.name` is a plain string although the food page writes `food.name?.`. The order-detail search calls `includes` on the resolved name without a guard (frontend/src/pages/orderDetail.js:153-154), so a nameless dish would stop that page. The `@IsNotEmpty` on the food DTO is a type-level declaration only: no validation pipe enforces it. The model assumes every dish has a name, so with an empty term every dish is listed.
- `parseInt` and `Number` results are `JsNumber` (an integer or NaN) where NaN changes a decision: the quantity and the route's order id on the order-detail page, whose Add button treats NaN as falsy. The food page's price is `Number(e.target.value)` of a number input (frontend/src/pages/food.js:284, 355). That input's value is "" or a well-formed number, never text that parses to NaN, so `FoodPage.NewFoodForm.price` and `Pricing.Food.price` are plain integers. Fractional prices are left out, and so are fractional quantities.
- The table refuses a second row with the same username or email; the services' `findUnique` on those columns implies they are unique. So `register` with a taken username fails with the table's error, not the service's, and so does an update that would duplicate another user's username or email.
- `getOne`, `update` and `delete` convert the route's id with `Number(id)` themselves; the model's services take that id as an integer.

## Model

| member | source | states |
|---|---|---|
| `Pricing.LookupUsesFirstMatch` | frontend/src/pages/order.js:358-366 | The price and name used are those of the first menu item whose id equals foodId, even if later items share the id. |
| `Pricing.LookupOfUnknownFood` | frontend/src/pages/orderDetail.js:130-138 | A dish no menu item carries costs 0 and is named "Không xác định". |
| `Pricing.PriceComesFromMenu` | frontend/src/pages/order.js:363-366 | For a dish on the menu, the price returned is the price of some item with that id. |
| `Pricing.ReduceIsSum` | frontend/src/pages/order.js:376-378 | The left-to-right reduce from any start value equals the start value plus the sum of price × quantity. |
| `Pricing.TotalIsSumOfLines` | frontend/src/pages/orderDetail.js:147-151 | `calculateTotal` equals the independent sum of price(foodId) × quantity over the lines. |
| `Pricing.TotalOfNoLines` | frontend/src/pages/order.js:375-379 | No lines total 0. |
| `Pricing.TotalConcat` | frontend/src/pages/orderDetail.js:147-151 | The total is additive over concatenated line lists. |
| `Pricing.TotalAppend` | frontend/src/pages/order.js:375-379 | Appending a line adds exactly price(foodId) × quantity. |
| `Pricing.UnknownLinesAddNothing` | frontend/src/pages/order.js:363-379 | Dropping every line whose dish is off the menu leaves the total unchanged. |
| `Pricing.TotalNonNegative` | frontend/src/pages/orderDetail.js:147-151 | With non-negative prices and quantities the total is non-negative. |
| `OrderPage.FilteredOrdersIsSubsequence` | frontend/src/pages/order.js:160-165 | `filteredOrders` is a subsequence of the orders in their original order. |
| `OrderPage.FilteredOrdersKeepsMatches` | frontend/src/pages/order.js:160-165 | An order is listed iff it is an order and its description or user name (both lowercased) or its id string contains the term. A listed order appears as many times as in the orders, an unlisted one not at all. |
| `OrderPage.EmptyTermMatchesPresentFields` | frontend/src/pages/order.js:161-164 | With an empty term an order matches iff it has an id, a description or a user name. |
| `OrderPage.EmptyTermKeepsOrdersWithId` | frontend/src/pages/order.js:163 | With an empty term every order that has an id is listed. |
| `OrderPage.OrderSearchIgnoresTermCase` | frontend/src/pages/order.js:161-164 | The search gives the same answer for a term and its lowercase form. The id test does not lower the term, but an id's digits contain no letter. |
| `OrderPage.AddOrderRequest` | frontend/src/pages/order.js:167-187 | No request when the logged-in user id is missing or 0; otherwise an order for that user id with description "" and status SERVED. |
| `OrderPage.NewOrderIsBeingServed` | frontend/src/pages/order.js:182-187 | A created order is labelled "Đang phục vụ" in the list. |
| `OrderPage.StatusLabel` | frontend/src/pages/order.js:455-461 | SERVED shows "Đang phục vụ", COMPLETED shows "Đã hoàn thành", any other status is shown unchanged. |
| `OrderPage.ResetFormDisablesAdd` | frontend/src/pages/order.js:307-313 | The reset form adds to the order being viewed. Its Add button is disabled until a dish is chosen, and choosing one enables it iff the dish id is non-zero. |
| `OrderDetailPage.FilteredDetailsIsSubsequence` | frontend/src/pages/orderDetail.js:152-155 | `filteredOrderDetails` is a subsequence of the lines in their original order. |
| `OrderDetailPage.FilteredDetailsKeepsMatches` | frontend/src/pages/orderDetail.js:152-155 | A line is listed iff it is a line and its resolved dish name, not lowercased, contains the lowercased term. A listed line keeps its number of occurrences. |
| `OrderDetailPage.EmptyTermKeepsAllDetails` | frontend/src/pages/orderDetail.js:154 | An empty term lists every line, in order. |
| `OrderDetailPage.ExactCapitalisedNameNotFound` | frontend/src/pages/orderDetail.js:152-155 | A line for the dish "Pho" is hidden when the term is "Pho". |
| `OrderDetailPage.FoldedSearchFindsDishName` | frontend/src/pages/orderDetail.js:152-155 | With both sides lowercased, a line is found by its dish name in any case, and the result ignores the case of the term. |
| `OrderDetailPage.ResetFormTargetsRouteOrder` | frontend/src/pages/orderDetail.js:217-223 | The reset form's orderId is Number(route orderId), which is the order's id. The form keeps Add disabled. Add is enabled iff foodId is non-zero and quantity is neither NaN nor 0 (line 439). |
| `OrderDetailPage.HeaderStatusLabel` | frontend/src/pages/orderDetail.js:266 | The header shows "Đã phục vụ" iff the status is SERVED, and "Đã hoàn thành" for every other status. |
| `OrderDetailPage.HeaderAndListLabels` | frontend/src/pages/orderDetail.js:266 | The header and the list agree on COMPLETED and word SERVED differently. For any other status (other than the text "Đã hoàn thành" itself) the header says completed while the list shows the raw status. |
| `FoodPage.FilteredFoodsIsSubsequence` | frontend/src/pages/food.js:76-80 | `filteredFoods` is a subsequence of the menu in menu order. |
| `FoodPage.FilteredFoodsKeepsMatches` | frontend/src/pages/food.js:78-79 | A dish is listed iff it is on the menu and its lowercased name or lowercased description contains the lowercased term. A listed dish keeps its number of occurrences. |
| `FoodPage.EmptyTermKeepsEveryFood` | frontend/src/pages/food.js:78-79 | An empty term lists the whole menu. |
| `FoodPage.FoodSearchIgnoresTermCase` | frontend/src/pages/food.js:76-80 | The search gives the same list for a term and its lowercase form. |
| `FoodPage.AddFoodRule` | frontend/src/pages/food.js:318 | Add is enabled iff the name is non-empty and price > 0. The reset form (lines 140-146) disables it, and with a name and price typed into it, it follows the same rule. |
| `FoodPage.SaveFoodRule` | frontend/src/pages/food.js:388 | Save on edit follows the same rule as Add, and is disabled with no selection. |
| `EmployeePage.FilteredEmployeesSpec` | frontend/src/pages/employee.js:84-88 | `filteredEmployees` is an order-preserving subsequence. It keeps an employee iff the lowercased name or email contains the lowercased term, and ignores the term's case. Every kept employee keeps its number of occurrences. |
| `EmployeePage.WithoutEmptyPassword` | frontend/src/pages/employee.js:113-116 | The edit body has a password key iff the password is truthy, and then the same one. No other field changes. |
| `EmployeePage.EditPayload` | frontend/src/pages/employee.js:112-118 | Copying the record and deleting a falsy password key in place yields that body. |
| `EmployeePage.OpenEditDialog` | frontend/src/pages/employee.js:165-168 | The dialog's copy has password "" and every other field equal. |
| `EmployeePage.EditWithoutPasswordOmitsIt` | frontend/src/pages/employee.js:113-118 | Saving an opened dialog without typing a password sends the record without a password key. A typed password is sent as typed. |
| `EmployeePage.AddEmployeeRule` | frontend/src/pages/employee.js:364-368 | Add is enabled iff username, password and name are all non-empty. The reset form (lines 154-163) disables it and defaults the role to EMPLOYEE. Filling those three fields into it follows the same rule. |
| `EmployeePage.SaveEmployeeRule` | frontend/src/pages/employee.js:475 | Save is enabled iff username and name are non-empty. The password may be empty, so the blanked dialog copy never disables it. |
| `EmployeeEdit.UpdateBody` | frontend/src/pages/employee.js:118 | The edit body read as an update request has an undefined password exactly when the page removed the key. |
| `EmployeeEdit.EditWithoutPasswordKeepsStoredOne` | frontend/src/pages/employee.js:113-118 | Saving without typing a password keeps the stored password. Sending the blank one instead would store "". |
| `UserStore.LookupsFindTheRow` | backend/src/user/user.service.ts:25-29 | Under the unique constraints, a lookup by a row's id, username or email finds that row. |
| `UserStore.UserTable.Insert` | backend/src/user/user.service.ts:57-59 | The table refuses a duplicate username or email and is then unchanged. Otherwise it appends the row under the next id. |
| `UserStore.UserTable.Replace` | backend/src/user/user.service.ts:86-91 | The table refuses a missing id or a clash with another row; otherwise only that row is replaced. |
| `UserStore.UserTable.Remove` | backend/src/user/user.service.ts:96-100 | The table refuses a missing id; otherwise it removes exactly that row and returns it. |
| `Users.GetAll` | backend/src/user/user.service.ts:10-21 | One entry per user, in the model's table order, holding its id, username, name, email, phone and role. |
| `Users.GetAllIgnoresPasswords` | backend/src/user/user.service.ts:12-19 | Two tables that differ only in passwords list identically, so no password reaches the list. |
| `Users.GetAllAppend` | backend/src/user/user.service.ts:10-21 | In the model's table order, a new user's projection is added at the end of the list. |
| `Users.GetOne` | backend/src/user/user.service.ts:24-34 | Fails with 'User không tồn tại' iff no user has the id; otherwise returns a user with that id. |
| `Users.GetOneReturnsTheRow` | backend/src/user/user.service.ts:24-34 | Under the constraints it returns exactly the row with that id. |
| `Users.FindExisting` | backend/src/user/user.service.ts:38-49 | Finds a user iff some user has the username or the email. |
| `Users.UserService.Create` | backend/src/user/user.service.ts:36-65 | Fails iff a user has the username or the email, always with the single error 'Tạo người dùng không thành công', leaving the table unchanged. Otherwise appends exactly one user, whose password is hash(dto.password). |
| `Users.PatchedFields` | backend/src/user/user.service.ts:76-91 | Update keeps the id. A field given a value (even "") takes it; an undefined or null field keeps its value. The password is hashed only when truthy, so "" is stored as "". |
| `Users.EmptyPatchKeepsRow` | backend/src/user/user.service.ts:82-91 | A request whose fields are all undefined or null leaves the row as it was. |
| `Users.PatchIdempotent` | backend/src/user/user.service.ts:82-91 | Without a truthy password, applying the same update twice equals applying it once. |
| `Users.UserService.Update` | backend/src/user/user.service.ts:67-93 | Fails with 'User không tồn tại' and changes nothing when the id is absent. Otherwise it writes the patched row and changes nothing else, unless the new username or email belongs to another user. |
| `Users.UserService.Delete` | backend/src/user/user.service.ts:95-107 | Removes exactly the row with the id and returns it. A missing id fails with the table's error, never with 'User không tồn tại'. |
| `Auth.Login` | backend/src/auth/auth.service.ts:8-18 | Succeeds only with a user having that username and exactly that stored password. An unknown username fails. Every failure is the one error 'Email hoặc mật khẩu không đúng'. |
| `Auth.LoginSucceedsIff` | backend/src/auth/auth.service.ts:9-16 | Under the constraints, login succeeds iff some user has both the username and the password. |
| `Auth.AuthService.Register` | backend/src/auth/auth.service.ts:27-45 | Fails with 'Email đã tồn tại' and changes nothing when the email is taken. Only the email is checked: a taken username is refused by the table. Otherwise appends one user with the given fields, the password unhashed and the role EMPLOYEE. |
| `Auth.LoginAfterAppend` | backend/src/auth/auth.service.ts:9-17 | After a user with a new username is appended, logging in under that username checks that user's stored password. |
| `Auth.RegisteredUserCanLogIn` | backend/src/auth/auth.service.ts:35-44 | A registered user can log in with the password they registered with. |
| `Auth.CreatedUserCannotLogIn` | backend/src/auth/auth.service.ts:14 | A user stored by `create` cannot log in with the password given at creation, whenever its hash differs from it. |
| `Auth.LoginHashed` | backend/src/auth/auth.service.ts:14 | The corrected login succeeds only when the stored password is the hash of the given one. |
| `Auth.CreatedUserLogsInHashed` | backend/src/auth/auth.service.ts:14 | With the corrected login, a user stored by `create` logs in with the password given at creation. |
| `Auth.AuthService.RegisterHashed` | backend/src/auth/auth.service.ts:20-46 | The corrected register: the same email check and the same refusal of a taken username by the table. Otherwise it appends one EMPLOYEE user whose password is hash(password). |
| `Auth.RegisteredUserLogsInHashed` | backend/src/auth/auth.service.ts:35-44 | With the corrected login, a user stored by the corrected register logs in with the password they registered with. |
| `Auth.UnhashedRegisterFailsHashedLogin` | backend/src/auth/auth.service.ts:35-44 | A user stored by the as-written register, whose password is unhashed, is refused by the corrected login whenever hash(password) differs from the password. |

## Findings

| source | as written | input that shows it | evidently intended | confidence | as-written member | corrected member |
|---|---|---|---|---|---|---|
| backend/src/auth/auth.service.ts:14 | `login` compares the given password with the stored one by `!==`. The user service's `create` stores `bcrypt.hash(password)` instead (backend/src/user/user.service.ts:53-56). | Create a user with username "an" and password "secret", then log in as ("an", "secret"): the stored bcrypt hash is not "secret", so login fails. | Login checks the password against the stored hash (bcrypt's compare), and register hashes the password as create does. | high; not executed | `Auth.CreatedUserCannotLogIn` | `Auth.CreatedUserLogsInHashed` |
| frontend/src/pages/orderDetail.js:154 | `foodName.includes(searchTerm.toLowerCase())` lowercases the term but not the dish name. | Menu [dish 1 "Pho"], a line for dish 1, term "Pho": the term becomes "pho", which "Pho" does not contain, so the line is hidden. | Lowercase both sides, as the order, food and employee pages do. | medium; not executed | `OrderDetailPage.ExactCapitalisedNameNotFound` | `OrderDetailPage.FoldedSearchFindsDishName` |

The as-written `Auth.Login`, `Auth.AuthService.Register` and `OrderDetailPage.FilteredOrderDetails` stay in the model. The corrected `Auth.LoginHashed`, `Auth.AuthService.RegisterHashed` and `OrderDetailPage.FilteredOrderDetailsFolded` stand beside them.

The two halves of the login fix go together. `Auth.RegisteredUserCanLogIn` holds for the as-written pair, login and register both unhashed. `Auth.RegisteredUserLogsInHashed` holds for the corrected pair, both hashing. `Auth.UnhashedRegisterFailsHashedLogin` shows that correcting login alone would lock out every user created through register. The order-detail correction affects nothing else.

## Left out

- Rendering and UI state: dialogs, snackbars, loading flags, styled components, the status chip colours, the login page and routing.
- `formatPrice` and `formatDate`: they delegate to the platform's locale formatting.
- The axios client modules and the localStorage reads and writes. `handleAddOrder` receives the stored user id as a parameter.
- The food, order and order-detail services: they only pass calls through to the ORM.
- The controllers: they call the services with signatures that do not match them.
- The ORM access path itself: the users table is the `UserStore.UserTable` class. Other tables and foreign keys are not modelled, so a delete refused because of a user's orders is not modelled.
- bcrypt: the hash is the uninterpreted `hash` function. Salting and cost rounds are not modelled. update reads the cost from the environment without the fallback of 10 that create uses; that is not modelled either.
- Text.ToLower: lowercases ASCII capitals only. Unicode case mapping (the Vietnamese letters, for one) is not modelled.
- Text.ToNumber: reads "" as 0 and an optional minus sign followed by decimal digits as that integer. It is NaN for anything else, which is where JavaScript's `Number` differs: whitespace, "+", fractions, exponents, hex, and "Infinity"/"-Infinity" (±Infinity in JavaScript, NaN here).
- Users.GetAll: `findMany` without an `orderBy` (backend/src/user/user.service.ts:11-20) promises no order, and the database may return rows in any order. The model lists rows in its table order: a new row comes last and an updated row keeps its place. So the position of an employee in the list, before or after an edit, is not modelled. Nor is a database id sequence that skips values after a refused insert: the model's `nextId` advances only on success.
- Users.GetOne: takes the id as an integer. What `Number(id)` and the ORM do with a non-numeric id is not modelled.
- Users.UpdateUserDto: holds the six fields of the update DTO. No validation pipe is installed, so extra keys in the body (the employee page also sends `id`) reach the ORM update. Those keys are not modelled.
- EmployeeEdit.UpdateBody: requires the role to be EMPLOYEE or MANAGER. The ORM's rejection of another role string is not modelled.
- Concurrency between requests: each service call is one atomic step on the table.
- Non-integer prices and JavaScript floating point: prices and quantities are integers.
