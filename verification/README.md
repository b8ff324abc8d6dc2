# waste-bank-api: a verified model of the CRUD core

This project models the request-handling core of the waste-bank API in Dafny. The API serves three tables: categories, sub-categories and roles. For each table it offers a paged list, create, get by id, update and bulk delete.

Every request goes through two stages, and both are modelled:

1. **Validation.** A zod validator checks the query string, path parameter or JSON body. On failure, `validatorHandler` folds the issues into a field-keyed `errors` map and answers 400 "Bad Request".
2. **Handler.** The handler consults the table and may change it. The conflict check returns 409, the existence check returns 404, and a write refused by a database constraint surfaces as a 500 `HTTPException`.

Module layout:

| module | what it holds |
|---|---|
| `ValidatorHandler` | The issue-grouping fold, as an imperative loop (`GroupIssues`) proved against a pure fold (`Group`). |
| `Checks`, `Query` | The zod checks the request schemas are built from: string, max length, boolean, uuid, uuid with an existence refinement, and arrays of those. Also the list query with its `order` allow-list and the `is_active` coercion. |
| `CategoryModel`, `SubCategoryModel`, `RoleModel` | The per-entity request schemas. |
| `DbHelper`, `Paging`, `Ordering`, `Strings` | `isRecordExist`, the row filter, count and lookup; LIMIT/OFFSET, the page count and the pushed WHERE conditions; ORDER BY; ILIKE and the UUID format. |
| `Schema`, `Db` | The tables as a `Database` class with one `seq` field per table. Each write method states when Postgres accepts the statement and preserves the table constraints. |
| `Responses`, `CategoryRoutes`, `SubCategoryRoutes`, `RoleRoutes` | The fifteen handlers. Each list handler is proved against one shared list specification (`Paging.Listing`). Each write handler is proved against the table it leaves and the response it returns. |

Inputs the code takes from outside are parameters:

- the generated uuid and the current time (`id`, `now`);
- the `PAGE_SIZE` setting (`configured`);
- the JSON body, as an already parsed `Json.Value`.

Where the project's specification and its code disagree, this model follows the code:

- A sub-category code is unique across all categories. The column is `unique()` and the 409 check looks only at `code`. The specification makes codes unique per parent category.
- The list search passes `search` to ILIKE unchanged, without adding `%`. So a search is a pattern match on the whole value, not a substring search (`Paging.SearchIsWholeValue`).
- Updating a category does not set `updated_at`. Sub-category and role updates do.
- Every validator failure answers 400, including failed existence refinements. The specification and the tests expect 422 for those.
- A role code may be up to 20 characters (`z.string().max(20)`). The role table's definition is not part of this model. So the model enforces only the role primary key. The handlers' 409 checks keep role codes unique when they already were (`RoleCodesUnique`), and the handlers run on any roles table.
- The category code validator accepts 20 characters, but the column holds only 10. PostgreSQL stores an over-long value in a varchar column only when every character past the limit is a space, and then cuts those spaces off (section 8.3 of the PostgreSQL documentation). So a create or update with an 11–20 character code passes validation and then gets one of two outcomes. If it ends in spaces, it is stored cut to 10 characters. Otherwise it fails in the database with a 500 (`CategoryModel.LongCodePassesValidation`, `CategoryRoutes.Create`, `CategoryRoutes.Apply`). The 409 check compares the code as sent, so a code that clashes only after the cut also ends in a 500.
- The role list renders `def_path` under the key `def_ath`. Get by id uses `def_path` (`RoleRoutes.ListAndGetNameDefPathApart`).

## Model

| member | source | states |
|---|---|---|
| ValidatorHandler.GroupIssues | src/utils/validator-handler.ts:19-36 | The in-place `reduce` loop produces exactly the pure fold `Group` of the issues. |
| ValidatorHandler.Handle | src/utils/validator-handler.ts:14-45 | Nothing is returned iff validation succeeded. On failure the response is status 400, message "Bad Request", and the grouped errors. |
| ValidatorHandler.GroupKeys | src/utils/validator-handler.ts:21-26 | The keys of `errors` are exactly the first path segments of the issues (an empty path gives "undefined"). |
| ValidatorHandler.GroupSingles | src/utils/validator-handler.ts:29-33 | For a key whose issues all carry string messages, the list holds those messages in issue order. |
| ValidatorHandler.GroupEntries | src/utils/validator-handler.ts:19-36 | A key's list is the last array message for that key followed by the later string messages for it. With no array message, it is all the key's strings. |
| ValidatorHandler.ListMessageResets | src/utils/validator-handler.ts:29-33 | An array message replaces what was accumulated for its key, and later strings are appended after it. |
| ValidatorHandler.LastResetAt | src/utils/validator-handler.ts:29-30 | The last array message of a key is the one that decides the key's list. |
| ValidatorHandler.GroupIsolatesKeys | src/utils/validator-handler.ts:21-33 | A key's list depends only on the issues filed under that key. |
| ValidatorHandler.GroupIgnoresPathTails | src/utils/validator-handler.ts:21 | Path segments after the first do not change the grouped errors. |
| DbHelper.IsRecordExist | src/utils/common-db-helper.ts:10-25 | With no filter: true iff the table has a row. With a filter: true iff some row satisfies it. |
| DbHelper.SelectNonEmpty | src/utils/common-db-helper.ts:24 | The select returns a row iff some row passes the filter. |
| DbHelper.SelectMember | src/utils/common-db-helper.ts:15-20 | A row is selected iff it is in the table and passes the filter. |
| DbHelper.SelectMembers | src/utils/common-db-helper.ts:15-20 | Every selected row comes from the table and passes the filter, and there are no more of them than table rows. |
| DbHelper.CountIsSelectLength | src/modules/category/index.ts:46 | `$count` under a predicate equals the number of rows the same WHERE selects. |
| DbHelper.CountAgreesWithExists | src/modules/category/index.ts:64 | `count(p) >= 1` agrees with `isRecordExist(p)`. |
| DbHelper.FoundByKey | src/modules/category/index.ts:87 | Probing `eq(column, x)` finds a row iff some row holds x in that column. |
| DbHelper.Lookup | src/modules/category/index.ts:97 | `const [record] = select ... where eq(column, x)` yields a table row holding x, and is absent iff no row holds it. |
| DbHelper.KeysOf | src/modules/category/index.ts:145 | `.map((col) => col.id)` keeps one id per returned row, in order. |
| DbHelper.ListedKeys | src/modules/category/index.ts:145 | `DELETE ... WHERE id IN ids RETURNING id` returns x iff x is listed and some row had it. |
| Strings.ILikeLiteral | src/modules/category/index.ts:22-23 | A pattern without `%` or `_` ILIKE-matches exactly the values equal to it up to case. |
| Paging.Offset | src/modules/category/index.ts:35 | The offset is `(page - 1) * page_size`, never negative for page ≥ 1. |
| Paging.Window | src/modules/category/index.ts:34-35 | LIMIT/OFFSET gives at most `limit` rows: the rows from the offset on, in order, and none past the end. |
| Paging.Pages | src/modules/category/index.ts:51 | `Math.ceil(total / page_size)` is the least page count whose pages hold `total` rows. |
| Paging.WhereMeans | src/modules/category/index.ts:22-33 | `and(...filters, or(...searching))` over the pushed conditions holds iff `is_active` matches (when given) and code or name ILIKE-matches the search (when non-empty). |
| Paging.SearchIsWholeValue | src/modules/category/index.ts:22-23 | A search without wildcards keeps a row iff its code or name equals the search up to case. It is not a substring search. |
| Paging.Project | src/modules/category/index.ts:31 | The selected columns of each row, one entry per row, in order. |
| Paging.ListingMeans | src/modules/category/index.ts:30-51 | A list body has `total` = the number of kept rows and `(pages-1)*size < total <= pages*size`. `data` holds exactly the rows of the window: `size` rows, or the rows left after the offset `(page-1)*size` when fewer remain, or none past the end. The entries are the ordered kept rows from that offset on, in order, and only table rows that pass the predicate are listed. |
| Paging.OrderedPermutes | src/modules/category/index.ts:38-40 | With both `order` and `dir` the rows are sorted by that column in that direction and are a permutation of the input. Without both they are left in table order. |
| Paging.NoConditionsKeepAll | src/modules/category/index.ts:33 | A predicate every row passes lists the whole table. |
| Paging.TwelveRowsFivePerPage | src/modules/category/index.ts:34-51 | Worked example: twelve rows at five a page make three pages, and page 2 holds five rows. |
| Ordering.SortBySorted | src/modules/category/index.ts:39 | `asc`/`desc` on a column gives a sorted permutation of the rows. |
| Query.Parse | src/utils/common-model.ts:3-17 | The query is accepted iff `dir` is absent, "asc" or "desc", and `order` is absent or allowed. On failure the error keys are exactly the refused fields. On success search, page, page_size, order and dir pass through and `is_active` is coerced. |
| Query.ColumnNamed | src/modules/category/model.ts:24 | `z.enum` finds the allowed column with the given name iff there is one. |
| Query.DirNamed | src/utils/common-model.ts:16 | Only "asc" and "desc" are directions. |
| Query.CoerceTrueIgnoresCase | src/modules/category/model.ts:25-31 | A value coerces to true iff it spells "true" in any mix of cases. |
| Query.CoerceAbsentOrEmpty | src/modules/category/model.ts:28-29 | An absent or empty `is_active` leaves the filter off, and any other value turns it on. |
| Query.CoerceExamples | src/modules/category/model.ts:28-29 | Worked example: "TRUE" gives true, and "yes" and "false" give false. |
| Checks.CheckString | src/modules/role/model.ts:13 | `z.string()`: no issue iff the value is a string, else one issue at the field. |
| Checks.CheckStringMax | src/modules/category/model.ts:10-11 | `z.string().max(n)`: no issue iff a string of at most n characters. A longer string gives "too_big" at the field. |
| Checks.CheckBoolean | src/modules/category/model.ts:12 | `z.boolean()`: no issue iff a boolean. |
| Checks.CheckUuid | src/modules/category/index.ts:82 | `z.uuid()`: no issue iff a string in UUID format. |
| Checks.CheckUuidExists | src/modules/sub-category/model.ts:10-12 | `z.uuid({abort:true}).refine(found)`: no issue iff a UUID string that is found. A non-UUID gets only the format issue, whatever the table holds. |
| Checks.CheckUuidItems | src/modules/sub-category/model.ts:50-54 | The element checks raise no issue iff every element passes. |
| Checks.ItemIssuesAtFailingIndices | src/modules/sub-category/model.ts:50-54 | Every element issue is filed at the index of an element that fails. |
| Checks.FailingIndicesCarryIssues | src/modules/sub-category/model.ts:50-54 | Every failing element has an issue filed at its index. |
| Checks.CheckUuidArray | src/modules/sub-category/model.ts:50-54 | An array is accepted iff every element passes, and then yields the element texts in order. A non-array is a single type issue at the root. |
| CategoryModel.ParseBody | src/modules/category/model.ts:9-19 | Create and update bodies are accepted iff code is a string of at most 20, name of at most 50, and `is_active` a boolean. On failure the error keys are exactly the refused fields. |
| CategoryModel.ParseQuery | src/modules/category/model.ts:22-33 | Accepted iff `dir` is valid and `order` is one of id, code, name, is_active. `is_active` is coerced and the other fields pass through. |
| CategoryModel.OrderableNames | src/modules/category/model.ts:24 | The allow-list is exactly {id, code, name, is_active}. |
| CategoryModel.ParseId | src/modules/category/index.ts:82 | The path id is accepted iff it is a UUID. Errors are filed under "id". |
| CategoryModel.ParseIds | src/modules/category/index.ts:139 | The delete body is accepted iff it is an array of UUID strings, and yields them in order. |
| CategoryModel.LongCodePassesValidation | src/modules/category/model.ts:10 | A code of 11–20 characters passes validation but does not fit the 10-character column. The database accepts it iff everything past the tenth character is a space, and stores its first ten characters. |
| SubCategoryModel.CategoryFoundMeans | src/modules/sub-category/model.ts:10-12 | The parent refinement finds s iff some category has id s. |
| SubCategoryModel.SubFoundMeans | src/modules/sub-category/model.ts:23-25 | The id refinement finds s iff some sub-category has id s. |
| SubCategoryModel.ParentIssues | src/modules/sub-category/model.ts:10-12 | `category` raises no issue iff it is a UUID of an existing category. A malformed value gets only the format issue. |
| SubCategoryModel.ParseBody | src/modules/sub-category/model.ts:9-19 | Accepted iff `category` names an existing category, code ≤ 20, name ≤ 50 and `is_active` is a boolean. The error keys are exactly the refused fields. |
| SubCategoryModel.MalformedParentSkipsLookup | src/modules/sub-category/model.ts:10 | With `abort: true` a malformed parent id is refused the same way whatever the categories table holds. |
| SubCategoryModel.ParseId | src/modules/sub-category/model.ts:22-26 | Accepted iff a UUID of an existing sub-category. A malformed id is a format issue under "id". |
| SubCategoryModel.ParseIds | src/modules/sub-category/model.ts:50-54 | Accepted iff every element is a UUID of an existing sub-category. The accepted ids are returned in order. |
| SubCategoryModel.OneMissingRejects | src/modules/sub-category/model.ts:50-54 | A single unknown id rejects the whole array, with an issue at its index. |
| SubCategoryModel.ParseQuery | src/modules/sub-category/model.ts:29-40 | The same checks, allow-list and coercion as the category query. |
| RoleModel.ParseBody | src/modules/role/model.ts:10-17 | Accepted iff code ≤ 20, name ≤ 50 and `def_path` is a string. The error keys are exactly the refused fields. |
| RoleModel.RoleFoundMeans | src/modules/role/model.ts:21-23 | The id refinement finds s iff some role has id s. |
| RoleModel.ParseId | src/modules/role/model.ts:20-24 | Accepted iff a UUID of an existing role. |
| RoleModel.OrderableNames | src/modules/role/model.ts:29 | The allow-list is exactly {id, code, name}. |
| RoleModel.ParseQuery | src/modules/role/model.ts:27-31 | Accepted iff `dir` is valid and `order` is one of id, code, name. There is no `is_active`, so the list never filters on it. |
| RoleModel.ElementChecks | src/modules/role/model.ts:41-43 | The element checks pass iff every element is a UUID string. |
| RoleModel.MissingIssuesSound | src/modules/role/model.ts:47-53 | Every issue of the refinement is filed at an index whose id is not a role. |
| RoleModel.MissingIssuesComplete | src/modules/role/model.ts:47-53 | Every index whose id is not a role carries an issue. |
| RoleModel.MissingIssuesAt | src/modules/role/model.ts:41-55 | An index has an issue iff its id is not a role, and there are no issues iff every id is a role. |
| RoleModel.DuplicatesCheckedAlike | src/modules/role/model.ts:47-53 | Repeated ids are checked each at its own index, with the same outcome. |
| RoleModel.SelectedIds | src/modules/role/model.ts:45 | A listed id is among the selected ids iff it is a role id. |
| RoleModel.ParseIds | src/modules/role/model.ts:41-55 | A non-array or non-UUID element fails with the element checks and the refinement is not consulted. Otherwise the array is accepted iff every id is a role, and the issues are exactly one "custom" issue per unknown index. |
| RoleModel.FileMissing | src/modules/role/model.ts:47-54 | The `forEach` loop files exactly the refinement's per-index issues, in index order. |
| Schema.IsActiveDefaultsToTrue | src/db/schemas/schema.ts:15 | An insert that omits `is_active` stores true (categories and sub-categories). |
| Schema.SubPairsUnique | src/db/schemas/schema.ts:32-40 | Because code is unique, the pair (category_id, code) is unique as well. |
| Schema.Stored | src/db/schemas/schema.ts:13-14 | A varchar(n) column holds a prefix of the value of at most n characters, and it is the value itself iff the value fits. |
| Schema.StoredRoundTrip | src/db/schemas/schema.ts:13-14 | A storable value is exactly its stored value followed by spaces, so the cut drops only spaces. |
| Schema.StoreCategory | src/db/schemas/schema.ts:11-20 | A stored category fits both varchar limits and keeps its id, is_active and timestamps. |
| Schema.SetCategoryChangesOnly | src/modules/category/index.ts:126 | Only the row with the id changes, and only its code, name and is_active. Its id and both timestamps stay. |
| Schema.SetSubChangesOnly | src/modules/sub-category/index.ts:121 | Only the row with the id changes: parent, code, name, is_active, and updated_at set to now. Its id and created_at stay. |
| Schema.SetRoleChangesOnly | src/modules/role/index.ts:109 | Only the role with the id changes: code, name, def_path, and updated_at set to now. Its id and created_at stay. |
| Schema.CategoryInsertKeeps | src/db/schemas/schema.ts:11-20 | An accepted insert keeps ids and codes unique, the length limits, and every sub-category's parent. |
| Schema.SetCategoryKeepsIds | src/modules/category/index.ts:126 | The update leaves the set of category ids unchanged. |
| Schema.CategoryUpdateKeeps | src/db/schemas/schema.ts:11-20 | An accepted update keeps the category constraints and the sub-category foreign key. |
| Schema.CategoryDeleteKeeps | src/db/schemas/schema.ts:26-31 | A delete that no sub-category blocks (ON DELETE RESTRICT) keeps every constraint of both tables. |
| Schema.SubInsertKeeps | src/db/schemas/schema.ts:22-41 | An accepted insert keeps sub-category ids and codes unique, the limits, and the foreign key. |
| Schema.SetSubKeepsIds | src/modules/sub-category/index.ts:121 | The update leaves the set of sub-category ids unchanged. |
| Schema.SubUpdateKeeps | src/db/schemas/schema.ts:22-41 | An accepted update keeps every sub-category constraint. |
| Schema.SubDeleteKeeps | src/db/schemas/schema.ts:22-41 | Deleting sub-categories keeps every constraint. |
| Schema.RoleInsertKeeps | src/modules/role/index.ts:62-67 | Inserting a role with a new id and a code no role holds keeps ids and codes unique. |
| Schema.RoleUpdateKeeps | src/modules/role/index.ts:104-109 | Updating a role to a code no other role holds keeps ids and codes unique. |
| Schema.RoleDeleteKeeps | src/modules/role/index.ts:128 | Deleting roles keeps ids and codes unique. |
| Db.Database.InsertCategory | src/modules/category/index.ts:69 | The insert is accepted iff the code and name are storable in their columns (the excess is spaces only), the id is new, and the code as stored is new. The stored row (both columns cut to length) is appended and returned; otherwise nothing changes. |
| Db.Database.UpdateCategory | src/modules/category/index.ts:126 | The update is accepted iff the new code and name are storable and no other row holds the code as stored. The table becomes `SetCategory` with the stored values; otherwise nothing changes. |
| Db.Database.DeleteCategories | src/modules/category/index.ts:145 | Refused iff a sub-category references a listed row. Otherwise the listed rows go and their ids are returned. |
| Db.Database.InsertSub | src/modules/sub-category/index.ts:79 | Accepted iff the row fits, its parent exists, and its id and code are new. |
| Db.Database.UpdateSub | src/modules/sub-category/index.ts:121 | Accepted iff the new values fit, the parent exists, and no other row holds the code. |
| Db.Database.DeleteSubs | src/modules/sub-category/index.ts:140 | The listed rows go and their ids are returned. |
| Db.Database.InsertRole | src/modules/role/index.ts:67 | Accepted iff the id is new. |
| Db.Database.UpdateRole | src/modules/role/index.ts:109 | The update is never refused, because no role constraint beyond the key is modelled. The table becomes `SetRole` and the key stays unique. |
| Db.Database.DeleteRoles | src/modules/role/index.ts:128 | The listed roles go and their ids are returned. |
| CategoryRoutes.List | src/modules/category/index.ts:15-57 | A refused query gives the grouped errors. Otherwise the body is the list specification `Listing` over the rows that pass `is_active` and the search, with the defaults page 1 and `PAGE_SIZE`. |
| CategoryRoutes.WhereSelects | src/modules/category/index.ts:33-46 | The pushed conditions select the same rows for the page and for the total. |
| CategoryRoutes.Create | src/modules/category/index.ts:58-81 | A taken code gives 409 "Category code already exists" and no change. Otherwise the result is a 500 with no change iff the code cannot be stored, the id is taken, or the code as stored is taken. Else it is 201 "Success" with the stored row, appended to the table. |
| CategoryRoutes.InsertedCarriesBody | src/modules/category/index.ts:69 | The row `returning()` gives back has the generated id, the body's name and is_active, both timestamps set to now, and the code as stored (the code itself when it fits). |
| CategoryRoutes.Get | src/modules/category/index.ts:82-106 | A malformed id is refused and an unknown id gives 404 "Not found". Otherwise 200 "Ok" with that row's columns. |
| CategoryRoutes.Update | src/modules/category/index.ts:107-138 | The path id is checked before the body, then 404 before 409. Keeping one's own code is not a conflict. The result is a 500 iff the code cannot be stored or clashes with another row once stored. Otherwise it is always 200, with only that row changed and its code as stored. |
| CategoryRoutes.Apply | src/modules/category/index.ts:115-133 | After validation: 404, 409, 500 and 200 exactly as above. When none of the refusals applies, the reply is 200 and the row is updated. The table is unchanged unless the reply is 200. |
| CategoryRoutes.Delete | src/modules/category/index.ts:139-157 | A 500 iff a listed row is still referenced, with no change. Otherwise always 200 "Success": the listed rows go and the returned ids are exactly the listed ids that existed. Unknown ids are skipped. |
| SubCategoryRoutes.CategoryName | src/modules/sub-category/index.ts:16 | The joined `category_name` is the name of a category with the row's `category_id`, or null iff there is none. |
| SubCategoryRoutes.JoinAlwaysNamesParent | src/modules/sub-category/index.ts:16 | Under the foreign key every listed row has its parent's name. |
| SubCategoryRoutes.List | src/modules/sub-category/index.ts:20-67 | A refused query gives the grouped errors. Otherwise the body is `Listing` over the sub-categories kept by `is_active` and a search on their own code and name, never the parent's. |
| SubCategoryRoutes.WhereSelects | src/modules/sub-category/index.ts:15-17 | `withJoinAndFilters` selects the same rows for the page and for the count. |
| SubCategoryRoutes.Create | src/modules/sub-category/index.ts:68-91 | A code held by any sub-category, under any parent, gives 409 "Sub category code already exists". Otherwise 201 with one row under the validated parent, or a 500 iff the id is taken. |
| SubCategoryRoutes.Get | src/modules/sub-category/index.ts:92-106 | Validation refuses a malformed or unknown id. Otherwise 200 "Ok" with the row and its parent's name, and never a 404. |
| SubCategoryRoutes.Update | src/modules/sub-category/index.ts:107-133 | The path id (which must exist) is checked before the body. A clash with another row gives 409 "Sub Category code already exists". Otherwise 200 with only that row changed, and updated_at set to now. |
| SubCategoryRoutes.Apply | src/modules/sub-category/index.ts:115-129 | After validation the update cannot be refused. It is 409 on a clash, else 200. |
| SubCategoryRoutes.Delete | src/modules/sub-category/index.ts:134-152 | Validated ids all exist. They are removed and exactly the listed ids are returned. |
| RoleRoutes.ListAndGetNameDefPathApart | src/modules/role/index.ts:29 | List entries carry `def_ath` and get carries `def_path`, with the same value. |
| RoleRoutes.List | src/modules/role/index.ts:14-55 | A refused query gives the grouped errors. Otherwise the body is `Listing` over the roles the search keeps, with no is_active filter. |
| RoleRoutes.WhereSelects | src/modules/role/index.ts:31-44 | The search conditions select the same rows for the page and for the total. |
| RoleRoutes.Create | src/modules/role/index.ts:56-79 | A taken code gives 409 "Role already exists" and no change. Otherwise 201 with one appended row, or a 500 iff the id is taken. Unique codes stay unique. |
| RoleRoutes.Get | src/modules/role/index.ts:80-94 | Validation refuses a malformed or unknown id. Otherwise 200 "Ok" with the role rendered with `def_path`. |
| RoleRoutes.Update | src/modules/role/index.ts:95-121 | The path id is checked before the body. A clash with another role gives 409. Otherwise 200 with only that role's code, name, def_path and updated_at changed. Unique codes stay unique. |
| RoleRoutes.Apply | src/modules/role/index.ts:103-117 | After validation: 409 on a clash, else 200 with the updated role. |
| RoleRoutes.Delete | src/modules/role/index.ts:122-140 | Refused with the element issues or one issue per unknown id. Otherwise the listed roles go and exactly the listed ids are returned. Unique codes stay unique. |

## Left out

- HTTP framing, routing, the JSON parsing of bodies and the serialisation of responses. Bodies arrive as parsed `Json.Value`s, and the 500 is the `Internal` response without `error-handler.ts`'s body.
- The `Number(val)` conversion of `page` and `page_size` is floating point and may give NaN. The model takes them as integers, and the three `List` methods require them to be at least 1 when present, with `PAGE_SIZE` at least 1. The code does not guard these: page 0 gives a negative OFFSET, and page_size 0 divides by zero.
- zod's English message texts. Each modelled issue carries its issue code as its message. zod's `JSON.parse` of the error message is left out, and the fold starts from the issue list.
- The HTTP status of a validator refusal is not part of the route responses. `Rejected` carries only the grouped errors. `ValidatorHandler.Handle` states the 400.
- ILIKE's backslash escape and locale-aware case folding. The model folds ASCII letters only and treats `%` and `_` as wildcards.
- Collation and the order of ties. ORDER BY compares strings by code point and keeps ties in table order. Booleans sort false before true.
- Postgres compares UUIDs case-insensitively. The model compares the strings exactly.
- Check-then-write races between concurrent requests. Each request is atomic over the `Database` object.
- Clock values and uuid generation are parameters. The audit columns `created_by` and `updated_by` are not modelled.
- Lengths are counted in characters, not in UTF-16 code units.
- The `users` table and the role table's own column constraints are not part of this model. Only the role primary key is enforced.
- The unused array branch of `isRecordExist` (`sql.join` of several filters) is not modelled. No caller passes an array.
- The seeders and the database client are not part of this model.
- Db.Database.InsertSub: the varchar cut of trailing spaces is not modelled for `category_subs`. An over-long code or name is always refused. The validator bounds both fields to their column lengths, so no request reaches the difference.
- Db.Database.UpdateSub: the same as `InsertSub`. The trailing-space cut is not modelled for `category_subs`.
