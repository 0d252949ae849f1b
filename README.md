# gestion-commerciale: a verified model of the commercial-management core

This project models in Dafny the core of *gestion-commerciale-backend*, a Spring Boot back office for a small business. The core covers:

- **Human-readable codes.** The sequence service hands out `CLI-2025-0001`, `CAT-…` and `CNT-…` codes from one counter row per (type, year).
- **The catalogue.**
  - Categories form a tree through a parent link, with a level and a full path.
  - Products carry prices with VAT and a stock with a minimum.
  - The services create, update and delete them, enforcing unique codes and the tree rules.
- **The CRM part.**
  - Customers, their addresses (one default per customer) and their contacts (one primary per customer).
  - Contact follow-up dates and the business rules the contact service enforces.
- **The browser-side customer form check.** The email and SIRET shapes.
- **The language switch.** It rewrites the language segment of the page to return to.
- **Roles and their permissions.**

## How the model is built

Each JPA repository is a `Table` class. It holds the rows as a `map` from id to an immutable row datatype, plus the next identity value. The sequence table is keyed by (type, year).

The services are modules of methods that `modify` the tables they write:

- Each method's `ensures` ties the new tables to specification functions of the old ones: `CreateOutcome`, `UpdateOutcome`, `Advance` and so on.
- Lemmas then prove what the application promises about those functions: uniqueness, at most one default or primary, acyclic categories, distinct codes.
- A `@Transactional` method that throws rolls back. The model makes this explicit: on every error path the tables are restored, so a refused create consumes no sequence number.

Other modelling choices:

- **Error paths.** `Result` values carry the service exceptions.
- **Nullable columns.** These are `Option`s.
- **Money.**
  - Money is an integer number of hundredths.
  - `BigDecimal` `HALF_UP` rounding to two decimals is written out.
- **Time.**
  - Dates are integer seconds of the server's local wall-clock time.
  - The clock, the current year and "today" are parameters.
- **Row order.**
  - The order of `findBy…OrderBy…` results is a stable insertion sort of the rows listed by ascending id.
  - Its comparison is proved total and transitive.

Where the code falls short of the rule it evidently aims at, the model follows the code:

- **Category cycles.** `update` rejects only a category named as its own parent (CategoryService.java:137-139). A deeper cycle is stopped only by the recursive `getFullPath` in the response mapping, which overflows the stack. Spring then rolls the transaction back, so no cycle is ever stored, but the caller gets an error rather than a validation message (`CategoryService.Update`, `CategoryModel.ReparentCycle`, `CategoryService.ChecksAcceptTwoCycle`).
- **Primary contacts.** The code aims at one primary contact per customer: `clearOtherPrimaryContacts` (ContactService.java:343-354) clears the others, and `findPrimaryContactByCustomerId` (ContactRepository.java:65-66) returns a single `Optional`. The rule does not hold on update when the contact keeps its primary flag but moves to another customer (`ContactService.UpdateCanLeaveTwoPrimaries`).
- **Default addresses.** `createAddresses` saves every address of a new customer as given, so several defaults can be stored (`CustomerService.CreateMayStoreSeveralDefaults`).

## Model

| member | source | states |
|---|---|---|
| SequenceRepository.Table.constructor | gestion-commerciale-backend/src/main/java/com/example/gestioncommerciale/model/Sequence.java:13-38 | the counters table starts with no (type, year) row |
| SequenceRepository.FindByTypeAndYear | gestion-commerciale-backend/src/main/java/com/example/gestioncommerciale/repository/SequenceRepository.java:16 | the lookup finds a row exactly when one is stored for that (type, year), and returns that row |
| SequenceService.Digits | gestion-commerciale-backend/src/main/java/com/example/gestioncommerciale/service/SequenceService.java:41-42 | the decimal text of a counter is non-empty and made of digits only |
| SequenceService.ParseDigitsOfDigits | gestion-commerciale-backend/src/main/java/com/example/gestioncommerciale/service/SequenceService.java:41-42 | reading the decimal text of a number back gives that number |
| SequenceService.Zeros | gestion-commerciale-backend/src/main/java/com/example/gestioncommerciale/service/SequenceService.java:41 | the padding is exactly `k` zero digits |
| SequenceService.LeadingZeroIgnored | gestion-commerciale-backend/src/main/java/com/example/gestioncommerciale/service/SequenceService.java:41 | one leading zero does not change the value read back |
| SequenceService.LeadingZerosIgnored | gestion-commerciale-backend/src/main/java/com/example/gestioncommerciale/service/SequenceService.java:41 | any number of leading zeros leave the value read back unchanged |
| SequenceService.DigitCount | gestion-commerciale-backend/src/main/java/com/example/gestioncommerciale/service/SequenceService.java:41 | a number prints in at most `k` digits exactly when it is below 10^k |
| SequenceService.PowAtLeastTen | gestion-commerciale-backend/src/main/java/com/example/gestioncommerciale/service/SequenceService.java:41 | 10^k is at least 10 for k ≥ 1, so a width of one digit or more holds 0..9 |
| SequenceService.ZeroPad4 | gestion-commerciale-backend/src/main/java/com/example/gestioncommerciale/service/SequenceService.java:41 | `%04d` yields digits only, four of them below 10000 and all the significant digits above |
| SequenceService.ZeroPadParses | gestion-commerciale-backend/src/main/java/com/example/gestioncommerciale/service/SequenceService.java:41 | the padded text reads back as the counter value |
| SequenceService.ZeroPadInjective | gestion-commerciale-backend/src/main/java/com/example/gestioncommerciale/service/SequenceService.java:41 | two counter values print alike only when they are equal |
| SequenceService.ZeroPadWidth | gestion-commerciale-backend/src/main/java/com/example/gestioncommerciale/service/SequenceService.java:41 | the number part is exactly four characters wide if and only if the value is below 10000 |
| SequenceService.ZeroPadKeepsWideValues | gestion-commerciale-backend/src/main/java/com/example/gestioncommerciale/service/SequenceService.java:41 | from 10000 on the number is printed in full, five digits or more, never truncated or wrapped |
| SequenceService.FormatCodeInjective | gestion-commerciale-backend/src/main/java/com/example/gestioncommerciale/service/SequenceService.java:41-42 | for one prefix and year, two codes are equal exactly when their counter values are |
| SequenceService.GenerateSequentialCode | gestion-commerciale-backend/src/main/java/com/example/gestioncommerciale/service/SequenceService.java:33-63 | the call stores the advanced counter of (type, current year), creating it at 0 with the prefix and padding 4 if absent, and returns the code of the new value |
| SequenceService.GenerateCustomerCode | gestion-commerciale-backend/src/main/java/com/example/gestioncommerciale/service/SequenceService.java:24-30 | the customer code comes from the CUSTOMER counter with prefix CLI |
| SequenceService.GenerateCategoryCode | gestion-commerciale-backend/src/main/java/com/example/gestioncommerciale/service/SequenceService.java:64-73 | the category code comes from the CATEGORY counter with prefix CAT |
| SequenceService.GenerateContactCode | gestion-commerciale-backend/src/main/java/com/example/gestioncommerciale/service/SequenceService.java:67-78 | the contact code comes from the CONTACT counter with prefix CNT |
| SequenceService.AdvanceIncrements | gestion-commerciale-backend/src/main/java/com/example/gestioncommerciale/service/SequenceService.java:37-42 | each call raises the stored counter by exactly one, and the code it returns prints that new value |
| SequenceService.AdvanceTouchesOneRow | gestion-commerciale-backend/src/main/java/com/example/gestioncommerciale/service/SequenceService.java:37-39 | no counter row of another (type, year) is created, removed or changed |
| SequenceService.FirstCodeOfYear | gestion-commerciale-backend/src/main/java/com/example/gestioncommerciale/service/SequenceService.java:55-62 | the first code of a (type, year) ends in `-0001`, and its new row stores the prefix, padding 4 and value 1 |
| SequenceService.PrefixDoesNotSelectCounter | gestion-commerciale-backend/src/main/java/com/example/gestioncommerciale/service/SequenceService.java:48-53 | the counter is chosen by (type, year) alone: two prefixes share one numbering, and an existing row keeps its first prefix |
| SequenceService.NewYearRestarts | gestion-commerciale-backend/src/main/java/com/example/gestioncommerciale/service/SequenceService.java:34-37 | a new year starts again at 1 and leaves the previous year's counter as it was |
| SequenceService.Codes | gestion-commerciale-backend/src/main/java/com/example/gestioncommerciale/service/SequenceService.java:33-46 | `n` successive calls hand out `n` codes |
| SequenceService.AdvancedValue | gestion-commerciale-backend/src/main/java/com/example/gestioncommerciale/service/SequenceService.java:37-39 | after `k` calls the counter has grown by exactly `k` |
| SequenceService.CodesCount | gestion-commerciale-backend/src/main/java/com/example/gestioncommerciale/service/SequenceService.java:37-42 | the i-th of successive codes carries the stored value plus i + 1 |
| SequenceService.CodesDistinct | gestion-commerciale-backend/src/main/java/com/example/gestioncommerciale/service/SequenceService.java:33-46 | however many codes are generated in one year for one type, no code is handed out twice |
| SequenceService.CodeAt | gestion-commerciale-backend/src/main/java/com/example/gestioncommerciale/service/SequenceService.java:37-42 | call i of a run returns the code of the i-th value after the stored one |
| SequenceService.CustomerCodeShape | gestion-commerciale-backend/src/test/java/com/example/gestioncommerciale/integration/CustomerServiceIntegrationTest.java:44 | for a four-digit year and fewer than 9999 earlier customers, the customer code matches `CLI-\d{4}-\d{4}` as the integration test expects |
| SequenceService.YearWidth | gestion-commerciale-backend/src/main/java/com/example/gestioncommerciale/service/SequenceService.java:35 | a year from 1000 to 9999 prints in four digits |
| SequenceService.PatternOfParts | gestion-commerciale-backend/src/main/java/com/example/gestioncommerciale/service/SequenceService.java:42 | `CLI-` followed by four digits, `-` and four digits matches the expected pattern |
| SequenceService.ConcatSlices | gestion-commerciale-backend/src/main/java/com/example/gestioncommerciale/service/SequenceService.java:42 | each part of a code joined from four pieces can be sliced back out at its offsets |
| CategoryModel.AncestorsSound | gestion-commerciale-backend/src/main/java/com/example/gestioncommerciale/model/catalog/Category.java:88-96 | a parent chain that is found starts at the category, follows the parent links to a root and never repeats an id |
| CategoryModel.AncestorsComplete | gestion-commerciale-backend/src/main/java/com/example/gestioncommerciale/model/catalog/Category.java:88-96 | every such chain is found |
| CategoryModel.AncestorsCharacterised | gestion-commerciale-backend/src/main/java/com/example/gestioncommerciale/model/catalog/Category.java:88-96 | the chain of a category is `c` if and only if `c` is a parent chain starting at it |
| CategoryModel.RootLevelAndPath | gestion-commerciale-backend/src/main/java/com/example/gestioncommerciale/model/catalog/Category.java:80-96 | a root has level 0 and its name as full path |
| CategoryModel.ChildLevelAndPath | gestion-commerciale-backend/src/main/java/com/example/gestioncommerciale/model/catalog/Category.java:88-96 | below a root, the level is the parent's plus one and the path is the parent's path, `" > "` and the name |
| CategoryModel.ParentStep | gestion-commerciale-backend/src/main/java/com/example/gestioncommerciale/model/catalog/Category.java:54-56 | a non-root has a finite chain exactly when its parent has one that does not pass through it; then its chain is its id in front of the parent's |
| CategoryModel.ChainTransfers | gestion-commerciale-backend/src/main/java/com/example/gestioncommerciale/model/catalog/Category.java:54-56 | a chain stays valid in any table that keeps the parents of its members |
| CategoryModel.AttachKeepsAcyclic | gestion-commerciale-backend/src/main/java/com/example/gestioncommerciale/service/catalog/CategoryService.java:106-124 | adding a category under an existing parent or at the root keeps every category's chain finite |
| CategoryModel.DetachKeepsAcyclic | gestion-commerciale-backend/src/main/java/com/example/gestioncommerciale/service/catalog/CategoryService.java:163-173 | removing a category without children keeps every chain finite |
| CategoryModel.RepointKeepsAcyclic | gestion-commerciale-backend/src/main/java/com/example/gestioncommerciale/service/catalog/CategoryService.java:142-152 | when only one category's parent changes and that category still reaches a root, every category still does |
| CategoryModel.RepointAlongChain | gestion-commerciale-backend/src/main/java/com/example/gestioncommerciale/service/catalog/CategoryService.java:142-152 | after such a change, each category that reached a root before still reaches one |
| CategoryModel.ChainFollowsLinks | gestion-commerciale-backend/src/main/java/com/example/gestioncommerciale/model/catalog/Category.java:54-56 | two chains from one category that agree on the parent links agree position by position |
| CategoryModel.ReparentCycle | gestion-commerciale-backend/src/main/java/com/example/gestioncommerciale/service/catalog/CategoryService.java:137-144 | giving a category another existing category as parent leaves its chain finite exactly when the new parent is not itself or one of its descendants |
| CategoryModel.ChildOfChain | gestion-commerciale-backend/src/main/java/com/example/gestioncommerciale/model/catalog/Category.java:88-96 | a child of the head of a chain sits one level below it, and its path is one segment longer |
| CategoryModel.ExtendChain | gestion-commerciale-backend/src/main/java/com/example/gestioncommerciale/model/catalog/Category.java:54-58 | a child of the head of a chain extends it by one new id |
| CategoryRepository.Table.constructor | gestion-commerciale-backend/src/main/java/com/example/gestioncommerciale/repository/catalog/CategoryRepository.java:21-64 | the categories table starts empty and valid |
| CategoryRepository.ExistsByParentIdIsHasChildren | gestion-commerciale-backend/src/main/java/com/example/gestioncommerciale/repository/catalog/CategoryRepository.java:59 | `existsByParentId` holds exactly when the entity's `hasChildren` does |
| CategoryRepository.FindMaxSortOrderByParent | gestion-commerciale-backend/src/main/java/com/example/gestioncommerciale/repository/catalog/CategoryRepository.java:61-64 | `MAX` is NULL exactly when there is no sibling; otherwise it is the sort order of a sibling and no sibling's is larger |
| CategoryRepository.FindWithFilters | gestion-commerciale-backend/src/main/java/com/example/gestioncommerciale/repository/catalog/CategoryRepository.java:31-43 | the filtered rows are stored rows |
| CategoryRepository.FindWithFiltersExact | gestion-commerciale-backend/src/main/java/com/example/gestioncommerciale/repository/catalog/CategoryRepository.java:31-43 | a row is returned if and only if it passes each supplied filter (active, parent, a case-insensitive search on name, code or description) |
| CategoryRepository.NoFilterReturnsAll | gestion-commerciale-backend/src/main/java/com/example/gestioncommerciale/repository/catalog/CategoryRepository.java:31-43 | with every filter NULL all categories are returned; a NULL parent does not mean "roots only" |
| CategoryRepository.EntryOrderIsPreorder | gestion-commerciale-backend/src/main/java/com/example/gestioncommerciale/repository/catalog/CategoryRepository.java:45-46 | `ORDER BY sortOrder, name` is total and transitive |
| CategoryRepository.InDisplayOrder | gestion-commerciale-backend/src/main/java/com/example/gestioncommerciale/repository/catalog/CategoryRepository.java:45-46 | the listing holds each requested category exactly once, with its row, sorted by sort order then name |
| CategoryRepository.Children | gestion-commerciale-backend/src/main/java/com/example/gestioncommerciale/model/catalog/Category.java:57-58 | the `children` association lists only rows whose parent is the category |
| CategoryRepository.CountProductsByCategory | gestion-commerciale-backend/src/main/java/com/example/gestioncommerciale/repository/catalog/CategoryRepository.java:48-49 | the count is zero exactly when no product is in the category, and never exceeds the number of products |
| CategoryRepository.IncludingChildrenCountsAtLeastDirect | gestion-commerciale-backend/src/main/java/com/example/gestioncommerciale/repository/catalog/CategoryRepository.java:48-53 | the count including children is never below the direct count |
| CategoryRepository.GrandchildProductsNotCounted | gestion-commerciale-backend/src/main/java/com/example/gestioncommerciale/repository/catalog/CategoryRepository.java:51-53 | only direct children are included: a product two levels down is not counted |
| CategoryService.ValidateUniqueFields | gestion-commerciale-backend/src/main/java/com/example/gestioncommerciale/service/catalog/CategoryService.java:192-202 | a check passes exactly when the code is NULL or no other category holds it; it fails only with a duplicate-code error |
| CategoryService.AddInt32 | gestion-commerciale-backend/src/main/java/com/example/gestioncommerciale/service/catalog/CategoryService.java:118 | the `Integer` sum stays in the 32-bit range, equals the exact sum when that fits, and differs from it by a multiple of 2^32 |
| CategoryService.DefaultSortOrderAfterSiblings | gestion-commerciale-backend/src/main/java/com/example/gestioncommerciale/service/catalog/CategoryService.java:116-119 | while every sibling's sort order is at most 2147483637, a missing or zero sort order becomes 10 past the largest sibling's, so the new category lists after all its siblings; with no sibling it is 10 |
| CategoryService.DefaultSortOrderWrapsAtTop | gestion-commerciale-backend/src/main/java/com/example/gestioncommerciale/service/catalog/CategoryService.java:116-119 | under a sibling at 2147483647 the sum wraps to -2147483639, so the new category lists before that sibling |
| CategoryService.GivenSortOrderKept | gestion-commerciale-backend/src/main/java/com/example/gestioncommerciale/service/catalog/CategoryService.java:116-119 | a submitted non-zero sort order is stored as given |
| CategoryService.ToEntity | gestion-commerciale-backend/src/main/java/com/example/gestioncommerciale/mapper/catalog/CategoryMapper.java:23-29 | the entity is built exactly when name and active are present, since their columns are NOT NULL; it carries the assigned code, sort order, submitted parent, name and description |
| CategoryService.Merge | gestion-commerciale-backend/src/main/java/com/example/gestioncommerciale/mapper/catalog/CategoryMapper.java:33-40 | the update mapper overwrites only the non-NULL fields and never touches the parent |
| CategoryService.MergeIdempotent | gestion-commerciale-backend/src/main/java/com/example/gestioncommerciale/mapper/catalog/CategoryMapper.java:33-40 | applying a form twice is applying it once, and a form without fields changes nothing |
| CategoryService.Create | gestion-commerciale-backend/src/main/java/com/example/gestioncommerciale/service/catalog/CategoryService.java:99-128 | create fails with duplicate code, missing parent or a NOT NULL violation in that order of checks and then changes nothing; otherwise it inserts the entity at the next id, consumes a CAT number only when no code was given, and keeps codes unique and the tree acyclic |
| CategoryService.InsertKeepsInvariants | gestion-commerciale-backend/src/main/java/com/example/gestioncommerciale/service/catalog/CategoryService.java:109-124 | a new row with an unused code under an existing parent keeps ids below the counter, parents existing, the tree acyclic and codes unique |
| CategoryService.Update | gestion-commerciale-backend/src/main/java/com/example/gestioncommerciale/service/catalog/CategoryService.java:130-156 | update fails when the category is missing, the code is taken, the parent is itself, the parent is missing or the parent lies below it (stack overflow, rolled back); it succeeds exactly otherwise and then stores the merged row with the new parent, so the tree stays acyclic |
| CategoryService.SaveUpdated | gestion-commerciale-backend/src/main/java/com/example/gestioncommerciale/service/catalog/CategoryService.java:149-155 | the save fails exactly when the new parent's chain passes through the category, and then restores the table |
| CategoryService.Delete | gestion-commerciale-backend/src/main/java/com/example/gestioncommerciale/service/catalog/CategoryService.java:158-175 | delete is refused when the category is missing, has subcategories or has products; only then is the table unchanged, otherwise exactly that row goes and no product is left without its category |
| CategoryService.Subtree | gestion-commerciale-backend/src/main/java/com/example/gestioncommerciale/service/catalog/CategoryService.java:215-225 | a tree node carries the category's id, code, name, level, full path and direct product count |
| CategoryService.SubtreeChildren | gestion-commerciale-backend/src/main/java/com/example/gestioncommerciale/service/catalog/CategoryService.java:215-225 | a node has one child node per child category, in the `children` order |
| CategoryService.TreesOf | gestion-commerciale-backend/src/main/java/com/example/gestioncommerciale/service/catalog/CategoryService.java:219-222 | the child nodes correspond one to one, in order, to the given children |
| CategoryService.ChildTree | gestion-commerciale-backend/src/main/java/com/example/gestioncommerciale/service/catalog/CategoryService.java:219-222 | the node of a child describes that child |
| CategoryService.ChildLevelAndPath | gestion-commerciale-backend/src/main/java/com/example/gestioncommerciale/service/catalog/CategoryService.java:204-225 | every child node is one level below its parent node, and its path is the parent's, `" > "` and its name |
| CategoryService.RootTree | gestion-commerciale-backend/src/main/java/com/example/gestioncommerciale/service/catalog/CategoryService.java:92-97 | a root's node has level 0 and the root's name as path |
| CategoryService.RootTrees | gestion-commerciale-backend/src/main/java/com/example/gestioncommerciale/service/catalog/CategoryService.java:92-97 | the root nodes correspond one to one, in order, to the given roots |
| CategoryService.FindCategoryTree | gestion-commerciale-backend/src/main/java/com/example/gestioncommerciale/service/catalog/CategoryService.java:92-97 | the tree holds one root node per root category, in sort order then name, each at level 0 |
| CategoryService.ChecksAcceptTwoCycle | gestion-commerciale-backend/src/main/java/com/example/gestioncommerciale/service/catalog/CategoryService.java:134-147 | the explicit checks of update alone do accept moving a root under its own child, which would store a two-cycle |
| ProductModel.RoundHalfUpNearest | gestion-commerciale-backend/src/main/java/com/example/gestioncommerciale/model/catalog/Product.java:146-159 | `HALF_UP` rounding lands within half a unit of the exact quotient, and an exact half goes away from zero |
| ProductModel.RoundHalfUpOdd | gestion-commerciale-backend/src/main/java/com/example/gestioncommerciale/model/catalog/Product.java:146-159 | rounding a negated amount gives the negated rounding |
| ProductModel.RoundHalfUpShift | gestion-commerciale-backend/src/main/java/com/example/gestioncommerciale/model/catalog/Product.java:146-159 | whole units added to a non-negative amount pass through the rounding unchanged |
| ProductModel.PricesWithinHalfCent | gestion-commerciale-backend/src/main/java/com/example/gestioncommerciale/model/catalog/Product.java:146-159 | the price with VAT and the VAT amount are each the exact amount to the nearest cent |
| ProductModel.PriceIsUnitPlusVat | gestion-commerciale-backend/src/main/java/com/example/gestioncommerciale/model/catalog/Product.java:146-159 | for a non-negative price and rate, the price with VAT is the unit price plus the VAT amount, with no rounding gap |
| ProductModel.NullOperandsGiveNoVat | gestion-commerciale-backend/src/main/java/com/example/gestioncommerciale/model/catalog/Product.java:146-159 | a NULL price or rate gives no VAT, and the price with VAT is the unit price, or 0 when that is NULL |
| ProductModel.DefaultRateExample | gestion-commerciale-backend/src/main/java/com/example/gestioncommerciale/model/catalog/Product.java:67-68 | at the default rate of 20 %, 19.99 sells for 23.99 with 4.00 of VAT |
| ProductModel.UnmanagedNeverFlagged | gestion-commerciale-backend/src/main/java/com/example/gestioncommerciale/model/catalog/Product.java:161-167 | a product without stock management is never low or out of stock; a managed one is out of stock exactly at a quantity of 0 or below |
| ProductModel.OutOfStockIsLowStock | gestion-commerciale-backend/src/main/java/com/example/gestioncommerciale/model/catalog/Product.java:161-167 | with a non-negative minimum, out of stock implies low stock |
| ProductRepository.Table.constructor | gestion-commerciale-backend/src/main/java/com/example/gestioncommerciale/repository/catalog/ProductRepository.java:81-91 | the products table starts empty and valid |
| ProductRepository.FindWithFilters | gestion-commerciale-backend/src/main/java/com/example/gestioncommerciale/repository/catalog/ProductRepository.java:35-58 | the filtered rows are stored rows |
| ProductRepository.FindWithFiltersExact | gestion-commerciale-backend/src/main/java/com/example/gestioncommerciale/repository/catalog/ProductRepository.java:35-58 | a product is returned if and only if it passes each supplied filter: active, category, status, type, inclusive price bounds that a NULL price never meets, and a case-insensitive search over six text columns |
| ProductRepository.EmptyPriceRange | gestion-commerciale-backend/src/main/java/com/example/gestioncommerciale/repository/catalog/ProductRepository.java:40-41 | a minimum price above the maximum selects nothing |
| ProductRepository.FindLowStockProducts | gestion-commerciale-backend/src/main/java/com/example/gestioncommerciale/repository/catalog/ProductRepository.java:60-61 | exactly the stock-managed products at or below their minimum are listed, and the count of `countLowStockProducts` is the size of that set |
| ProductRepository.FindOutOfStockProducts | gestion-commerciale-backend/src/main/java/com/example/gestioncommerciale/repository/catalog/ProductRepository.java:63-64 | exactly the stock-managed products at a quantity of 0 are listed |
| ProductRepository.LowStockQueryMatchesEntity | gestion-commerciale-backend/src/main/java/com/example/gestioncommerciale/repository/catalog/ProductRepository.java:60-61 | the low-stock query agrees with the entity's `isLowStock` on every row |
| ProductRepository.OutOfStockQueryWithinEntity | gestion-commerciale-backend/src/main/java/com/example/gestioncommerciale/repository/catalog/ProductRepository.java:63-64 | every product the out-of-stock query returns is `isOutOfStock` |
| ProductRepository.NegativeStockNotListed | gestion-commerciale-backend/src/main/java/com/example/gestioncommerciale/repository/catalog/ProductRepository.java:63-64 | the converse fails: a product at -3 units is out of stock for the entity but not listed by the query |
| ProductService.ValidateUniqueFields | gestion-commerciale-backend/src/main/java/com/example/gestioncommerciale/service/catalog/ProductService.java:218-248 | the check passes exactly when no other product holds the code, nor the SKU or EAN when those are non-blank; the code is checked first, and each error names a real clash |
| ProductService.BlankSkuAndEanIgnored | gestion-commerciale-backend/src/main/java/com/example/gestioncommerciale/service/catalog/ProductService.java:229-247 | a blank SKU and EAN are never looked up, so only the code can clash |
| ProductService.ToEntity | gestion-commerciale-backend/src/main/java/com/example/gestioncommerciale/mapper/catalog/ProductMapper.java:28-32 | the mapper copies NULLs too, so the entity can be saved exactly when every NOT NULL column receives a value; it carries the assigned code and category, and the update mapper leaves it unchanged |
| ProductService.MergeIdempotent | gestion-commerciale-backend/src/main/java/com/example/gestioncommerciale/mapper/catalog/ProductMapper.java:36-41 | applying a form twice is applying it once, an all-NULL form changes nothing, the category is never touched and a stored price stays non-NULL |
| ProductService.InsertKeepsInvariants | gestion-commerciale-backend/src/main/java/com/example/gestioncommerciale/service/catalog/ProductService.java:126-142 | inserting a product with an unused code under an existing category keeps codes unique and categories existing |
| ProductService.Create | gestion-commerciale-backend/src/main/java/com/example/gestioncommerciale/service/catalog/ProductService.java:121-142 | create fails on a clash (code, then SKU, then EAN), a NULL or unknown category, or a NOT NULL violation, and then changes nothing and consumes no PRD number; otherwise it inserts the entity at the next id and consumes a number only when no code was given |
| ProductService.CreateWithCode | gestion-commerciale-backend/src/main/java/com/example/gestioncommerciale/service/catalog/ProductService.java:126-142 | once the code is known, the same checks decide the outcome and the insert happens exactly when they pass |
| ProductService.ReplaceKeepsCodesUnique | gestion-commerciale-backend/src/main/java/com/example/gestioncommerciale/service/catalog/ProductService.java:146-160 | rewriting one row keeps codes unique when no other row holds its new code |
| ProductService.Update | gestion-commerciale-backend/src/main/java/com/example/gestioncommerciale/service/catalog/ProductService.java:144-164 | update fails when the product is missing, a field clashes, the category is NULL, or a changed category does not exist; otherwise it stores the merged row under the submitted category |
| ProductService.Delete | gestion-commerciale-backend/src/main/java/com/example/gestioncommerciale/service/catalog/ProductService.java:166-174 | delete fails only for a missing id, and exactly that row goes |
| ProductService.UpdateStock | gestion-commerciale-backend/src/main/java/com/example/gestioncommerciale/service/catalog/ProductService.java:176-191 | a stock update is refused for a missing or unmanaged product and fails on a NULL quantity, rolling back; otherwise only the quantity of that row changes |
| ProductService.StockUpdateKeepsPrices | gestion-commerciale-backend/src/main/java/com/example/gestioncommerciale/service/catalog/ProductService.java:184-190 | a stock update leaves both prices alone, and a managed product set to 0 or below is out of stock |
| ContactModel.CivilityDisplay | gestion-commerciale-backend/src/main/java/com/example/gestioncommerciale/model/crm/Contact.java:190-199 | the civility text is empty exactly when no civility is set, and two to four characters otherwise |
| ContactModel.CivilityDisplayInjective | gestion-commerciale-backend/src/main/java/com/example/gestioncommerciale/model/crm/Contact.java:190-199 | no two civilities share an abbreviation |
| ContactModel.FullName | gestion-commerciale-backend/src/main/java/com/example/gestioncommerciale/model/crm/Contact.java:178-188 | the full name is the civility and a space when set, then the first name, then a space and the last name exactly when the last name is not blank |
| ContactModel.FullNameOfFirstNameOnly | gestion-commerciale-backend/src/main/java/com/example/gestioncommerciale/model/crm/Contact.java:178-188 | without a civility and with a blank last name the full name is the first name alone |
| ContactModel.DisplayName | gestion-commerciale-backend/src/main/java/com/example/gestioncommerciale/model/crm/Contact.java:201-207 | the display name starts with the full name and equals it exactly when the job title is NULL or blank; otherwise `" - "` and the title follow |
| ContactModel.Segment | gestion-commerciale-backend/src/main/java/com/example/gestioncommerciale/model/crm/Contact.java:217-225 | an optional address part adds text exactly when it is neither NULL nor blank |
| ContactModel.CitySegment | gestion-commerciale-backend/src/main/java/com/example/gestioncommerciale/model/crm/Contact.java:220-222 | the postal code and city are added exactly when both are non-NULL, whether blank or not |
| ContactModel.FormattedAddress | gestion-commerciale-backend/src/main/java/com/example/gestioncommerciale/model/crm/Contact.java:209-228 | the formatted address is empty exactly when there is no first line; otherwise it is the first line followed by the second line, the postal code with the city, and the country, each only when present |
| ContactModel.FormattedAddressOfOneLine | gestion-commerciale-backend/src/main/java/com/example/gestioncommerciale/model/crm/Contact.java:213-228 | with only a first line, the formatted address is that line |
| ContactModel.BlankCityStillPrinted | gestion-commerciale-backend/src/main/java/com/example/gestioncommerciale/model/crm/Contact.java:220-222 | an empty postal code and city still add a separator, because only NULL is checked there |
| ContactModel.EpochDay | gestion-commerciale-backend/src/main/java/com/example/gestioncommerciale/model/crm/Contact.java:234-240 | a time falls within the day it is mapped to |
| ContactModel.DaysSinceLastContact | gestion-commerciale-backend/src/main/java/com/example/gestioncommerciale/model/crm/Contact.java:234-240 | the value is -1 without a last contact, otherwise the calendar days between that contact and today, never negative for a past contact |
| ContactModel.EpochDayMonotone | gestion-commerciale-backend/src/main/java/com/example/gestioncommerciale/model/crm/Contact.java:234-240 | a later time never has an earlier day |
| ContactModel.DaysSinceCannotTellTomorrowFromNever | gestion-commerciale-backend/src/main/java/com/example/gestioncommerciale/model/crm/Contact.java:234-240 | -1 is ambiguous: a last contact dated tomorrow reads the same as no contact at all |
| ContactModel.BuildFullName | gestion-commerciale-backend/src/main/java/com/example/gestioncommerciale/model/crm/Contact.java:178-188 | the string-builder run of `getFullName` produces the full name |
| ContactModel.BuildFormattedAddress | gestion-commerciale-backend/src/main/java/com/example/gestioncommerciale/model/crm/Contact.java:213-228 | the string-builder run of `getFormattedAddress` produces the formatted address |
| ContactRepository.Table.constructor | gestion-commerciale-backend/src/main/java/com/example/gestioncommerciale/repository/crm/ContactRepository.java:98-106 | the contacts table starts empty and valid |
| ContactRepository.ExcludingAnotherCodeChangesNothing | gestion-commerciale-backend/src/main/java/com/example/gestioncommerciale/repository/crm/ContactRepository.java:98-102 | excluding an id that does not hold the code gives the same answer as the plain existence check |
| ContactRepository.OfCustomer | gestion-commerciale-backend/src/main/java/com/example/gestioncommerciale/repository/crm/ContactRepository.java:83-84 | the contacts of a customer are exactly the rows attached to it |
| ContactRepository.CountByCustomerIdOfMember | gestion-commerciale-backend/src/main/java/com/example/gestioncommerciale/repository/crm/ContactRepository.java:83-84 | a customer with a contact has a positive count, and a count of 1 if and only if that contact is its only one |
| ContactRepository.FindOtherPrimaryContactsForCustomer | gestion-commerciale-backend/src/main/java/com/example/gestioncommerciale/repository/crm/ContactRepository.java:108-109 | the other primaries of a customer are exactly its primary rows except the given contact |
| ContactRepository.ContactOrderIsPreorder | gestion-commerciale-backend/src/main/java/com/example/gestioncommerciale/repository/crm/ContactRepository.java:27 | `ORDER BY isPrimary DESC, lastName, firstName` is total and transitive |
| ContactRepository.LastNameStep | gestion-commerciale-backend/src/main/java/com/example/gestioncommerciale/repository/crm/ContactRepository.java:27 | the order on contacts is transitive |
| ContactRepository.FindByCustomerIdOrdered | gestion-commerciale-backend/src/main/java/com/example/gestioncommerciale/repository/crm/ContactRepository.java:27 | the listing holds each contact of the customer exactly once, with its row, in the declared order |
| ContactRepository.PrimaryContactsListedFirst | gestion-commerciale-backend/src/main/java/com/example/gestioncommerciale/repository/crm/ContactRepository.java:27 | no non-primary contact is listed before a primary one |
| ContactRepository.FindPrimaryContactByCustomerId | gestion-commerciale-backend/src/main/java/com/example/gestioncommerciale/repository/crm/ContactRepository.java:65-66 | the lookup is empty exactly when the customer has no primary, returns the sole primary when there is one, and fails with a non-unique result exactly when there are two |
| ContactRepository.PrimaryLookupSucceeds | gestion-commerciale-backend/src/main/java/com/example/gestioncommerciale/repository/crm/ContactRepository.java:65-66 | while each customer has at most one primary, the lookup never fails |
| ContactRepository.FindWithFilters | gestion-commerciale-backend/src/main/java/com/example/gestioncommerciale/repository/crm/ContactRepository.java:33-57 | the filtered rows are stored rows |
| ContactRepository.FindWithFiltersExact | gestion-commerciale-backend/src/main/java/com/example/gestioncommerciale/repository/crm/ContactRepository.java:33-57 | a contact is returned if and only if it passes each supplied filter: status, type, customer, priority, primary flag, and a case-insensitive search over nine columns including the customer's company name |
| ContactRepository.FindContactsDueForFollowup | gestion-commerciale-backend/src/main/java/com/example/gestioncommerciale/repository/crm/ContactRepository.java:59-60 | exactly the contacts with a follow-up dated no later than the given date are due |
| ContactRepository.OverdueIsDue | gestion-commerciale-backend/src/main/java/com/example/gestioncommerciale/model/crm/Contact.java:230-232 | an overdue contact is always due; a follow-up dated exactly now is due but not overdue |
| ContactRepository.FindContactsWithoutRecentContact | gestion-commerciale-backend/src/main/java/com/example/gestioncommerciale/repository/crm/ContactRepository.java:62-63 | exactly the contacts never contacted, or last contacted no later than the date, are stale |
| ContactRepository.CountStaleContacts | gestion-commerciale-backend/src/main/java/com/example/gestioncommerciale/repository/crm/ContactRepository.java:95-96 | the stale count is the size of the stale list |
| ContactRepository.CountOverdueContacts | gestion-commerciale-backend/src/main/java/com/example/gestioncommerciale/repository/crm/ContactRepository.java:92-93 | the overdue count is the number of follow-ups due now, with a non-strict bound |
| ContactRepository.OverdueCountCoversIsOverdue | gestion-commerciale-backend/src/main/java/com/example/gestioncommerciale/repository/crm/ContactRepository.java:92-93 | the overdue count is never below the number of contacts whose `isOverdue` holds |
| ContactService.ValidateUniqueFields | gestion-commerciale-backend/src/main/java/com/example/gestioncommerciale/service/crm/ContactService.java:297-317 | the check passes exactly when no other contact holds the code, nor the email when it is non-blank; the code is checked first, and each error names a real clash |
| ContactService.BlankEmailNeverDuplicate | gestion-commerciale-backend/src/main/java/com/example/gestioncommerciale/service/crm/ContactService.java:297-317 | a blank email is never a duplicate, so contacts may share one |
| ContactService.OwnValuesAllowedOnUpdate | gestion-commerciale-backend/src/main/java/com/example/gestioncommerciale/service/crm/ContactService.java:297-317 | on update the contact's own code never counts as a duplicate |
| ContactService.ValidateBusinessRules | gestion-commerciale-backend/src/main/java/com/example/gestioncommerciale/service/crm/ContactService.java:319-341 | the rules pass exactly when a LEAD has an email, a CRITICAL contact has a phone or a mobile, and the next contact date is not before the last; each error names the rule that failed, in that order |
| ContactService.SameInstantFollowUpAllowed | gestion-commerciale-backend/src/main/java/com/example/gestioncommerciale/service/crm/ContactService.java:336-340 | a follow-up at the same instant as the last contact is allowed, because `isBefore` is strict |
| ContactService.ToEntity | gestion-commerciale-backend/src/main/java/com/example/gestioncommerciale/service/crm/ContactService.java:153-163 | the mapped contact can be saved exactly when type, status, first and last name and priority are present; it carries the assigned code, the customer and the primary flag, and merging the form again leaves it unchanged |
| ContactService.MergeIdempotent | gestion-commerciale-backend/src/main/java/com/example/gestioncommerciale/service/crm/ContactService.java:193 | applying a form twice is applying it once, the customer is never touched by the mapper, and a given primary flag is taken |
| ContactService.ClearedPrimaries | gestion-commerciale-backend/src/main/java/com/example/gestioncommerciale/service/crm/ContactService.java:343-354 | after clearing, no contact of the customer but the excluded one is primary; only primary flags of that customer's contacts change |
| ContactService.ClearedPrimariesIdempotent | gestion-commerciale-backend/src/main/java/com/example/gestioncommerciale/service/crm/ContactService.java:343-354 | clearing twice is clearing once |
| ContactService.ClearTargets | gestion-commerciale-backend/src/main/java/com/example/gestioncommerciale/service/crm/ContactService.java:344-347 | the contacts visited are exactly the customer's primaries other than the excluded one |
| ContactService.ListedPrimaries | gestion-commerciale-backend/src/main/java/com/example/gestioncommerciale/service/crm/ContactService.java:344-347 | filtering the ordered listing on the flag yields every primary of the customer |
| ContactService.UnflagOneMore | gestion-commerciale-backend/src/main/java/com/example/gestioncommerciale/service/crm/ContactService.java:349-353 | visiting one more contact unflags exactly that contact |
| ContactService.UnflaggedTargets | gestion-commerciale-backend/src/main/java/com/example/gestioncommerciale/service/crm/ContactService.java:343-354 | unflagging exactly the visited contacts is clearing the other primaries |
| ContactService.ClearOtherPrimaryContacts | gestion-commerciale-backend/src/main/java/com/example/gestioncommerciale/service/crm/ContactService.java:343-354 | the method leaves the table as clearing the customer's other primaries specifies |
| ContactService.UnflagEach | gestion-commerciale-backend/src/main/java/com/example/gestioncommerciale/service/crm/ContactService.java:349-353 | the loop unflags and saves every visited contact and nothing else, in any order |
| ContactService.CreateOutcome | gestion-commerciale-backend/src/main/java/com/example/gestioncommerciale/service/crm/ContactService.java:145-172 | create succeeds exactly when the fields are unique, the business rules pass, the customer is given and exists, the primary flag is given and the NOT NULL columns are filled; a primary contact first clears the customer's other primaries |
| ContactService.CreateErrors | gestion-commerciale-backend/src/main/java/com/example/gestioncommerciale/service/crm/ContactService.java:150-163 | the errors of create come in the service's order: uniqueness, business rules, a NULL customer, then a missing customer or a NULL primary flag |
| ContactService.CreatedPrimaryIsSole | gestion-commerciale-backend/src/main/java/com/example/gestioncommerciale/service/crm/ContactService.java:161-168 | a contact created as primary is the only primary of its customer |
| ContactService.CreateKeepsAtMostOnePrimary | gestion-commerciale-backend/src/main/java/com/example/gestioncommerciale/service/crm/ContactService.java:161-168 | create keeps at most one primary per customer |
| ContactService.InsertKeepsCodesUnique | gestion-commerciale-backend/src/main/java/com/example/gestioncommerciale/service/crm/ContactService.java:150-168 | inserting a contact whose code no row holds keeps codes unique, even after flags were cleared |
| ContactService.Create | gestion-commerciale-backend/src/main/java/com/example/gestioncommerciale/service/crm/ContactService.java:145-172 | create assigns the code, a CNT number only when none was given; then it stores the outcome at the next id, or fails with its error and changes nothing, counter included |
| ContactService.CreateWithCode | gestion-commerciale-backend/src/main/java/com/example/gestioncommerciale/service/crm/ContactService.java:150-172 | once the code is known, the stored rows and the error agree with the outcome of create |
| ContactService.UpdateOutcome | gestion-commerciale-backend/src/main/java/com/example/gestioncommerciale/service/crm/ContactService.java:174-200 | update fails for a missing contact; on success it stores the merged contact under the form's customer, which is given and exists or is unchanged, and clears the other primaries only when a non-primary contact becomes primary |
| ContactService.UpdateToPrimaryIsSole | gestion-commerciale-backend/src/main/java/com/example/gestioncommerciale/service/crm/ContactService.java:189-191 | a non-primary contact made primary becomes the sole primary of its customer |
| ContactService.UpdateCanLeaveTwoPrimaries | gestion-commerciale-backend/src/main/java/com/example/gestioncommerciale/service/crm/ContactService.java:182-191 | a primary contact moved to a customer that already has a primary leaves that customer with two |
| ContactService.UpdateKeepsCodesUnique | gestion-commerciale-backend/src/main/java/com/example/gestioncommerciale/service/crm/ContactService.java:174-200 | a successful update keeps codes unique |
| ContactService.Update | gestion-commerciale-backend/src/main/java/com/example/gestioncommerciale/service/crm/ContactService.java:174-200 | the method stores exactly the outcome of update, or fails with its error and changes nothing |
| ContactService.Delete | gestion-commerciale-backend/src/main/java/com/example/gestioncommerciale/service/crm/ContactService.java:202-218 | delete fails for a missing contact, and for a primary contact exactly when its customer has another contact; otherwise exactly that row goes |
| ContactService.DeleteKeepsAtMostOnePrimary | gestion-commerciale-backend/src/main/java/com/example/gestioncommerciale/service/crm/ContactService.java:202-218 | removing a row keeps at most one primary per customer |
| ContactService.UpdateLastContact | gestion-commerciale-backend/src/main/java/com/example/gestioncommerciale/service/crm/ContactService.java:220-232 | the last contact becomes now and the note is replaced, NULL included; a missing contact fails and changes nothing |
| ContactService.ScheduleNextContact | gestion-commerciale-backend/src/main/java/com/example/gestioncommerciale/service/crm/ContactService.java:234-248 | the next date is always stored, NULL included, and the note only when given; a missing contact fails and changes nothing |
| ContactService.ScheduleSkipsDateRule | gestion-commerciale-backend/src/main/java/com/example/gestioncommerciale/service/crm/ContactService.java:234-248 | scheduling stores a next date before the last contact, which the business rules of create and update would refuse |
| ContactService.SetPrimaryContact | gestion-commerciale-backend/src/main/java/com/example/gestioncommerciale/service/crm/ContactService.java:250-264 | the contact becomes primary, no other contact of its customer stays primary, other customers' rows are unchanged, and at most one primary per customer is kept |
| ContactService.SetPrimaryFrame | gestion-commerciale-backend/src/main/java/com/example/gestioncommerciale/service/crm/ContactService.java:250-264 | only primary flags change: keys, codes and owners stay, so codes stay unique |
| ContactService.SetPrimaryKeepsAtMostOne | gestion-commerciale-backend/src/main/java/com/example/gestioncommerciale/service/crm/ContactService.java:250-264 | setting a primary keeps at most one primary per customer |
| CustomerModel.FirstMatch | gestion-commerciale-backend/src/main/java/com/example/gestioncommerciale/model/Customer.java:149-151 | the position found is that of the first contact equal to the given one, and there is none exactly when no contact is equal |
| CustomerModel.RemoveFirst | gestion-commerciale-backend/src/main/java/com/example/gestioncommerciale/model/Customer.java:149-151 | `List.remove` drops the first equal contact and keeps the rest in order, or leaves the list alone when none is equal |
| CustomerModel.PrimaryContact | gestion-commerciale-backend/src/main/java/com/example/gestioncommerciale/model/Customer.java:154-159 | the primary contact is the first one flagged primary, or the first contact when none is, and null exactly for an empty list |
| CustomerModel.FirstPrimary | gestion-commerciale-backend/src/main/java/com/example/gestioncommerciale/model/Customer.java:154-157 | the index found is that of the first primary contact, and there is none when no contact is primary |
| CustomerModel.CountActive | gestion-commerciale-backend/src/main/java/com/example/gestioncommerciale/model/Customer.java:161-165 | the active count is zero exactly when no contact is ACTIVE and the list length exactly when all are |
| CustomerModel.CustomerEntity.constructor | gestion-commerciale-backend/src/main/java/com/example/gestioncommerciale/model/Customer.java:139-141 | a new customer starts with an empty contact list |
| CustomerModel.CustomerEntity.AddContact | gestion-commerciale-backend/src/main/java/com/example/gestioncommerciale/model/Customer.java:144-147 | the contact is appended to the list with its customer pointing at this customer |
| CustomerModel.CustomerEntity.RemoveContact | gestion-commerciale-backend/src/main/java/com/example/gestioncommerciale/model/Customer.java:149-152 | the first equal contact leaves the list and the contact's customer becomes null |
| CustomerModel.RemoveAfterAdd | gestion-commerciale-backend/src/main/java/com/example/gestioncommerciale/model/Customer.java:144-152 | removing a contact just added, when no equal one was there before, restores the list |
| CustomerModel.RemoveLength | gestion-commerciale-backend/src/main/java/com/example/gestioncommerciale/model/Customer.java:149-151 | removing shortens the list by one exactly when an equal contact was present |
| CustomerModel.AddedPrimaryBecomesPrimary | gestion-commerciale-backend/src/main/java/com/example/gestioncommerciale/model/Customer.java:144-159 | a primary contact added to a list without one becomes the customer's primary contact |
| CustomerRepository.Table.constructor | gestion-commerciale-backend/src/main/java/com/example/gestioncommerciale/model/Customer.java:20-25 | the customers table starts empty and valid |
| CustomerRepository.Table.Insert | gestion-commerciale-backend/src/main/java/com/example/gestioncommerciale/model/Customer.java:20-40 | an insert that breaks no unique constraint stores the customer at the next identity value and keeps the table valid |
| CustomerRepository.InsertKeepsUnique | gestion-commerciale-backend/src/main/java/com/example/gestioncommerciale/model/Customer.java:20-25 | an insert that clashes with no row keeps code, email and SIRET unique |
| CustomerRepository.NullColumnsNeverClash | gestion-commerciale-backend/src/main/java/com/example/gestioncommerciale/model/Customer.java:20-25 | without email and SIRET only the code can clash: NULLs never collide |
| CustomerService.ValidateUniqueFields | gestion-commerciale-backend/src/main/java/com/example/gestioncommerciale/service/CustomerService.java:174-194 | the check passes exactly when no other customer holds the code, nor the email when it is non-blank; the code is checked first, and each error names a real clash |
| CustomerService.OwnValuesAllowedOnUpdate | gestion-commerciale-backend/src/main/java/com/example/gestioncommerciale/service/CustomerService.java:174-194 | excluding the customer itself, its own code and email are never duplicates |
| CustomerService.ToEntity | gestion-commerciale-backend/src/main/java/com/example/gestioncommerciale/mapper/CustomerMapper.java:22-26 | the mapper copies NULLs, so a row can be inserted exactly when company name, payment term, status and type are present; it carries the form's values and the assigned code |
| CustomerService.NewCustomerDefaults | gestion-commerciale-backend/src/main/java/com/example/gestioncommerciale/dto/CustomerDTO.java:55-59 | a form that names only its company gives an ACTIVE COMPANY customer with 30 days to pay |
| CustomerService.BlankCodeIsGenerated | gestion-commerciale-backend/src/main/java/com/example/gestioncommerciale/service/CustomerService.java:61-63 | a NULL or blank code is replaced by the next CLI code of the year |
| CustomerService.CreateCustomerOutcome | gestion-commerciale-backend/src/main/java/com/example/gestioncommerciale/service/CustomerService.java:65-71 | the customer row is inserted exactly when the service's checks pass, the NOT NULL columns are filled and no unique constraint is broken; a duplicate-code error means the code is taken |
| CustomerService.BlankEmailClashesOnInsert | gestion-commerciale-backend/src/main/java/com/example/gestioncommerciale/service/CustomerService.java:174-194 | a blank email passes the service's check, yet a second customer with the same blank email breaks the unique constraint |
| CustomerService.DuplicateSiretOnlyRefusedOnInsert | gestion-commerciale-backend/src/main/java/com/example/gestioncommerciale/service/CustomerService.java:174-194 | the SIRET is never checked by the service: only the unique constraint refuses a duplicate |
| CustomerService.AddressToEntity | gestion-commerciale-backend/src/main/java/com/example/gestioncommerciale/mapper/AddressMapper.java:22-24 | the address can be inserted exactly when its NOT NULL columns are filled; it belongs to the given customer and keeps the form's flag, street, city, zip code and country |
| CustomerService.MergeAddress | gestion-commerciale-backend/src/main/java/com/example/gestioncommerciale/mapper/AddressMapper.java:28-31 | merging overwrites only non-NULL fields, never the customer, and an empty form changes nothing |
| CustomerService.MergeAddressIdempotent | gestion-commerciale-backend/src/main/java/com/example/gestioncommerciale/mapper/AddressMapper.java:28-31 | merging the same form twice is merging it once |
| CustomerService.SavedAddresses | gestion-commerciale-backend/src/main/java/com/example/gestioncommerciale/service/CustomerService.java:196-202 | the saved addresses are those of the leading forms, up to the first whose insert fails |
| CustomerService.AllSavedIffAllConvert | gestion-commerciale-backend/src/main/java/com/example/gestioncommerciale/service/CustomerService.java:196-202 | every address is saved exactly when every form converts |
| CustomerService.SavedAddressesUnique | gestion-commerciale-backend/src/main/java/com/example/gestioncommerciale/service/CustomerService.java:196-202 | any list that matches the forms up to a failing one, or to the end, is the saved list |
| CustomerService.InsertAll | gestion-commerciale-backend/src/main/java/com/example/gestioncommerciale/service/CustomerService.java:196-202 | saving a list puts each address at consecutive new ids and leaves every other row alone |
| CustomerService.SaveStep | gestion-commerciale-backend/src/main/java/com/example/gestioncommerciale/service/CustomerService.java:197-201 | one more saved address goes at the next id and extends the saved prefix |
| CustomerService.CreateAddresses | gestion-commerciale-backend/src/main/java/com/example/gestioncommerciale/service/CustomerService.java:196-202 | the loop stores the saved addresses at consecutive ids and succeeds exactly when all were saved |
| CustomerService.CreateMayStoreSeveralDefaults | gestion-commerciale-backend/src/main/java/com/example/gestioncommerciale/service/CustomerService.java:73-75 | two default addresses in one form both end up default |
| CustomerService.Create | gestion-commerciale-backend/src/main/java/com/example/gestioncommerciale/service/CustomerService.java:60-78 | create stores the customer at the next id and its addresses after it; on any error nothing changes and no CLI number is consumed |
| CustomerService.CreateWithCode | gestion-commerciale-backend/src/main/java/com/example/gestioncommerciale/service/CustomerService.java:65-78 | once the code is known, the customer is inserted and its addresses saved exactly when every check and insert passes |
| CustomerService.InsertWithAddresses | gestion-commerciale-backend/src/main/java/com/example/gestioncommerciale/service/CustomerService.java:71-75 | a customer that fits is inserted, then its addresses; a failing address undoes both |
| CustomerService.WithoutContactsOf | gestion-commerciale-backend/src/main/java/com/example/gestioncommerciale/model/Customer.java:139-141 | the contacts left are exactly those of other customers |
| CustomerService.Delete | gestion-commerciale-backend/src/main/java/com/example/gestioncommerciale/service/CustomerService.java:93-99 | delete fails only for a missing customer and then changes nothing; otherwise the customer goes with all its addresses and, through the cascade, its contacts |
| CustomerService.DeletedCustomerLeavesNothing | gestion-commerciale-backend/src/main/java/com/example/gestioncommerciale/service/CustomerService.java:93-99 | after delete the customer has no address and no contact, and other customers' addresses remain |
| CustomerService.PlacedDefaultIsSole | gestion-commerciale-backend/src/main/java/com/example/gestioncommerciale/service/CustomerService.java:114-118 | a default address stored after clearing is its customer's only default, and other customers are untouched |
| CustomerService.PlacedNonDefaultKeepsFlags | gestion-commerciale-backend/src/main/java/com/example/gestioncommerciale/service/CustomerService.java:114-118 | a non-default address stored this way changes no other row |
| CustomerService.PlacedKeepsAtMostOneDefault | gestion-commerciale-backend/src/main/java/com/example/gestioncommerciale/service/CustomerService.java:114-134 | storing this way never gives a customer a second default |
| CustomerService.AddAddress | gestion-commerciale-backend/src/main/java/com/example/gestioncommerciale/service/CustomerService.java:107-120 | the address is added under a new id, clearing the customer's defaults first when it is default; a missing customer, a NULL flag or a NOT NULL violation fails and changes nothing |
| CustomerService.AddKeepsAtMostOneDefault | gestion-commerciale-backend/src/main/java/com/example/gestioncommerciale/service/CustomerService.java:107-120 | adding keeps at most one default per customer |
| CustomerService.UpdateAddress | gestion-commerciale-backend/src/main/java/com/example/gestioncommerciale/service/CustomerService.java:122-136 | the merged address is stored, clearing the others first when it is default; a missing address fails and changes nothing |
| CustomerService.SetDefaultAddress | gestion-commerciale-backend/src/main/java/com/example/gestioncommerciale/service/CustomerService.java:145-152 | the address becomes default after the customer's defaults are cleared; a missing address fails and changes nothing |
| CustomerService.SetDefaultIsSole | gestion-commerciale-backend/src/main/java/com/example/gestioncommerciale/service/CustomerService.java:145-152 | afterwards the address is its customer's one and only default |
| CustomerService.SetDefaultOnOtherAsIntended | gestion-commerciale-backend/src/main/java/com/example/gestioncommerciale/service/CustomerService.java:145-152 | as written, making a non-default address default writes the flag after the bulk clear, so it becomes its customer's only default as intended |
| CustomerService.SetDefaultOnDefaultLosesIt | gestion-commerciale-backend/src/main/java/com/example/gestioncommerciale/service/CustomerService.java:145-152 | as written, making an already-default address default leaves its customer with no default |
| CustomerService.UpdateToNonDefaultAsIntended | gestion-commerciale-backend/src/main/java/com/example/gestioncommerciale/service/CustomerService.java:122-136 | as written, an update whose merged address is not default stores the merged address and changes no other row |
| CustomerService.UpdateDefaultLosesIt | gestion-commerciale-backend/src/main/java/com/example/gestioncommerciale/service/CustomerService.java:122-136 | as written, any update whose merged address is default stores the merged fields with the flag cleared and leaves its customer with no default; other customers are untouched |
| AddressRepository.Table.constructor | gestion-commerciale-backend/src/main/java/com/example/gestioncommerciale/repository/AddressRepository.java:17-34 | the addresses table starts empty and valid |
| AddressRepository.Table.UnsetAllDefaultForCustomer | gestion-commerciale-backend/src/main/java/com/example/gestioncommerciale/repository/AddressRepository.java:29-31 | the bulk update clears the default flag on every address of the customer and nothing else |
| AddressRepository.Table.DeleteByCustomerId | gestion-commerciale-backend/src/main/java/com/example/gestioncommerciale/repository/AddressRepository.java:33 | every address of the customer, and only those, is deleted |
| AddressRepository.UnsetAllDefault | gestion-commerciale-backend/src/main/java/com/example/gestioncommerciale/repository/AddressRepository.java:29-31 | the customer's addresses lose the flag, other fields and other customers stay as they were |
| AddressRepository.UnsetAllDefaultIdempotent | gestion-commerciale-backend/src/main/java/com/example/gestioncommerciale/repository/AddressRepository.java:29-31 | unsetting twice is unsetting once |
| AddressRepository.UnsetKeepsAtMostOneDefault | gestion-commerciale-backend/src/main/java/com/example/gestioncommerciale/repository/AddressRepository.java:29-31 | unsetting never creates a second default |
| AddressRepository.WithoutCustomer | gestion-commerciale-backend/src/main/java/com/example/gestioncommerciale/repository/AddressRepository.java:33 | the rows left are exactly the addresses of other customers, unchanged |
| AddressRepository.FindByCustomerId | gestion-commerciale-backend/src/main/java/com/example/gestioncommerciale/repository/AddressRepository.java:21 | the result is exactly the customer's addresses |
| AddressRepository.DeletedCustomerHasNoAddress | gestion-commerciale-backend/src/main/java/com/example/gestioncommerciale/repository/AddressRepository.java:21-33 | after `deleteByCustomerId` the customer has no address |
| AddressRepository.AddressOrderIsPreorder | gestion-commerciale-backend/src/main/java/com/example/gestioncommerciale/repository/AddressRepository.java:23 | `ORDER BY isDefault DESC` is total and transitive |
| AddressRepository.FindByCustomerIdOrderByIsDefaultDesc | gestion-commerciale-backend/src/main/java/com/example/gestioncommerciale/repository/AddressRepository.java:23 | the listing holds each address of the customer exactly once, with its row, defaults first |
| AddressRepository.DefaultsListedFirst | gestion-commerciale-backend/src/main/java/com/example/gestioncommerciale/repository/AddressRepository.java:23 | no non-default address is listed before a default one |
| AddressRepository.FindByCustomerIdAndIsDefaultTrue | gestion-commerciale-backend/src/main/java/com/example/gestioncommerciale/repository/AddressRepository.java:27 | the lookup is empty exactly when the customer has no default, returns the sole default when there is one, and fails with a non-unique result exactly when there are two |
| AddressRepository.DefaultLookupSucceeds | gestion-commerciale-backend/src/main/java/com/example/gestioncommerciale/repository/AddressRepository.java:27 | while each customer has at most one default, the lookup never fails |
| Text.EmptySearchMatchesNonNull | gestion-commerciale-backend/src/main/java/com/example/gestioncommerciale/repository/catalog/CategoryRepository.java:34-37 | an empty search text matches every non-NULL column, and a NULL column never matches |
| Text.SearchCaseInsensitive | gestion-commerciale-backend/src/main/java/com/example/gestioncommerciale/repository/catalog/CategoryRepository.java:34-37 | matching is the same for a search text and its lower-case form |
| Text.BlankIffAllTrimmable | gestion-commerciale-backend/src/main/java/com/example/gestioncommerciale/service/catalog/CategoryService.java:100-102 | a string is blank for `trim().isEmpty()` exactly when every character of it is at or below U+0020 |
| Security.Permission.constructor | gestion-commerciale-backend/src/main/java/com/example/gestioncommerciale/model/security/Permission.java:37-42 | a new permission carries the given name, description, module and action and has no role |
| Security.Role.constructor | gestion-commerciale-backend/src/main/java/com/example/gestioncommerciale/model/security/Role.java:39-42 | a new role carries the given name and description and has no permission |
| Security.Role.AddPermission | gestion-commerciale-backend/src/main/java/com/example/gestioncommerciale/model/security/Role.java:60-63 | the link is added on both sides and nothing else changes; adding an existing link changes nothing, and two-way consistency is kept |
| Security.Role.RemovePermission | gestion-commerciale-backend/src/main/java/com/example/gestioncommerciale/model/security/Role.java:65-68 | the link is removed from both sides and nothing else changes; removing a missing link changes nothing, and two-way consistency is kept |
| LocaleController.LocaleResolver.constructor | gestion-commerciale-backend/src/main/java/com/example/gestioncommerciale/controller/LocaleController.java:44 | a session starts without a chosen locale |
| LocaleController.OnlyFrenchAndEnglish | gestion-commerciale-backend/src/main/java/com/example/gestioncommerciale/controller/LocaleController.java:78-80 | only "fr" and "en" are supported languages |
| LocaleController.LocalizedHomePage | gestion-commerciale-backend/src/main/java/com/example/gestioncommerciale/controller/LocaleController.java:31-48 | an unsupported language redirects to the French home page and leaves the locale alone; a supported one becomes the session locale and the home template is shown |
| LocaleController.EffectiveReturnUrl | gestion-commerciale-backend/src/main/java/com/example/gestioncommerciale/controller/LocaleController.java:56 | a missing or empty return URL becomes "/", and any other is kept |
| LocaleController.RewriteReturnUrl | gestion-commerciale-backend/src/main/java/com/example/gestioncommerciale/controller/LocaleController.java:66-70 | the rewritten path starts with "/" and the language; a localized path has its language segment replaced, and any other path is prefixed unless it already starts with the language |
| LocaleController.ChangeLanguage | gestion-commerciale-backend/src/main/java/com/example/gestioncommerciale/controller/LocaleController.java:53-73 | a supported language becomes the session locale, an unsupported one leaves it alone, and in both cases the redirect goes to the rewritten return URL |
| LocaleController.RedirectUnderLanguage | gestion-commerciale-backend/src/main/java/com/example/gestioncommerciale/controller/LocaleController.java:66-72 | every redirect, even for an unsupported language, lands under "/" and that language |
| LocaleController.DefaultReturnUrlIsHome | gestion-commerciale-backend/src/main/java/com/example/gestioncommerciale/controller/LocaleController.java:56-72 | without a return URL the redirect is the language's home page |
| LocaleController.SwitchKeepsPath | gestion-commerciale-backend/src/main/java/com/example/gestioncommerciale/controller/LocaleController.java:66-67 | switching from French to English keeps the rest of the path |
| LocaleController.RewriteIdempotent | gestion-commerciale-backend/src/main/java/com/example/gestioncommerciale/controller/LocaleController.java:66-70 | rewriting a path that starts with "/" a second time changes nothing |
| LocaleController.RewriteNeedsLeadingSlash | gestion-commerciale-backend/src/main/java/com/example/gestioncommerciale/controller/LocaleController.java:68-69 | without a leading "/" the language is glued to the path, and a second rewrite differs from the first |
| CustomerFormChecks.RemoveWhitespace | gestion-commerciale-backend/src/main/resources/static/js/pages/customers.js:186 | removing whitespace never lengthens the text and leaves no whitespace |
| CustomerFormChecks.RemoveWhitespaceAppend | gestion-commerciale-backend/src/main/resources/static/js/pages/customers.js:186 | whitespace removal works piece by piece over a concatenation |
| CustomerFormChecks.RemoveWhitespaceKeeps | gestion-commerciale-backend/src/main/resources/static/js/pages/customers.js:186 | text without whitespace is left as it is |
| CustomerFormChecks.RemoveWhitespaceOfBlank | gestion-commerciale-backend/src/main/resources/static/js/pages/customers.js:186 | text removes to nothing exactly when it is all whitespace |
| CustomerFormChecks.SiretIgnoresWhitespace | gestion-commerciale-backend/src/main/resources/static/js/pages/customers.js:185-187 | inserting whitespace anywhere never changes the SIRET verdict |
| CustomerFormChecks.FourteenDigitsAccepted | gestion-commerciale-backend/src/main/resources/static/js/pages/customers.js:185-187 | any fourteen digits are a valid SIRET; no checksum is computed |
| CustomerFormChecks.ShortSiretRefused | gestion-commerciale-backend/src/main/resources/static/js/pages/customers.js:185-187 | fewer than fourteen characters are never a valid SIRET |
| CustomerFormChecks.Occurrences | gestion-commerciale-backend/src/main/resources/static/js/pages/customers.js:178 | the count of a character is at most the length, and zero exactly when the character is absent |
| CustomerFormChecks.OccursOnce | gestion-commerciale-backend/src/main/resources/static/js/pages/customers.js:178 | a character occurs once exactly when no other position holds it |
| CustomerFormChecks.EmailShape | gestion-commerciale-backend/src/main/resources/static/js/pages/customers.js:177-180 | the email regex accepts exactly the strings without whitespace, with one '@', a non-empty local part, and a '.' after the '@' that is neither the first nor the last character of the domain part |
| CustomerFormChecks.ValidEmailIsShaped | gestion-commerciale-backend/src/main/resources/static/js/pages/customers.js:177-180 | every accepted email has that shape |
| CustomerFormChecks.ShapedEmailIsValid | gestion-commerciale-backend/src/main/resources/static/js/pages/customers.js:177-180 | every string of that shape is accepted |
| CustomerFormChecks.PlainEmailAccepted | gestion-commerciale-backend/src/main/resources/static/js/pages/customers.js:177-180 | `a@b.c` is accepted |
| CustomerFormChecks.TwoAtSignsRefused | gestion-commerciale-backend/src/main/resources/static/js/pages/customers.js:177-180 | a second '@' is refused |
| CustomerFormChecks.DotRightAfterAtRefused | gestion-commerciale-backend/src/main/resources/static/js/pages/customers.js:177-180 | a '.' right after the '@' is refused |
| CustomerFormChecks.ValidateCustomerForm | gestion-commerciale-backend/src/main/resources/static/js/pages/customers.js:121-156 | the form is valid exactly when there are no errors, that is when the company name is not blank and a non-blank email and SIRET have the right shape; the messages come in field order |

## Left out

- `CustomerService.update` (CustomerService.java:80-91) and `deleteAddress` (CustomerService.java:138-143) are not modelled. Both are plain find-merge-save and find-delete calls with no rule beyond those already proved for the other operations.
- The read-only finders that only page or look up by id (`findAll`, `findById`, `findByCode`, search pages, statistics) are not modelled beyond the filters and counts in the table above. Paging and `Pageable` sorting are left out.
- Audit columns (`createdAt`, `updatedAt`, `createdBy`, `updatedBy`) and the auditing listener are left out. They are set by the framework and no rule reads them.
- Identity values: the model restores `nextId` on rollback. A database does not reuse identity values, so real ids may have gaps. No property depends on the exact id.
- Concurrency: two transactions calling `getOrCreateSequence` for a new (type, year) at once may both insert a row. The model runs one call at a time.
- `validateCustomerForm` also toggles CSS classes on the fields. That DOM side effect is left out; the returned validity and messages are modelled.
- The `forEach` of `clearOtherPrimaryContacts` visits a list in query order. The model visits a set in no particular order; since each step only clears one flag, the order does not affect the result.
- `Locale` objects are modelled by their language tag string.
- The Hibernate persistence context (first-level cache, dirty checking, the AUTO flush before a JPQL statement) is modelled only in `CustomerService.AsFlushed` and its lemmas. Everywhere else each repository call takes effect at once.
- `LIKE` wildcards (`%`, `_`) inside the search text are taken literally. `LOWER` is modelled on ASCII letters only.
- Image, icon, fax, website, birth date, notes, opt-ins, VAT number, credit limit, cost price, units, dimensions and URLs are not modelled. They are nullable columns and no rule of the core reads them. The NOT NULL `maxStockLevel` is modelled only as a column `ProductService.ToEntity` must fill.
- `CategoryRepository.InDisplayOrder`, `CategoryService.FindCategoryTree` and `ContactRepository.FindByCustomerIdOrdered` order text columns by code point (`Sorting.LexLe`). The database orders them by its collation, which the source does not fix and which may differ on case and accents ("B" against "a"). Rows with equal sort keys come back in an order the database leaves open; the model lists them by ascending id.
- `Security`: the set-valued fields are values, so two entities sharing one `HashSet` after `setPermissions` or `setRoles`, and the aliasing that follows, are not captured. `addPermission(null)`, which adds `null` and then throws, cannot be expressed: a `Permission` is never null in the model.
- The web and REST controllers other than the language switch, `AuditService`, `DataSeedService` and the DTO-computed display fields are outside the modelled core.
- `CustomerModel.CustomerEntity.AddContact` and `RemoveContact` change the in-memory list and the contact's back-reference only. Their persistence happens elsewhere and is not modelled.
- `CategoryService.Update`: the Java recursion on a cycle is modelled as a `StackOverflow` result, not as a real stack.
- Time zones: times are the server's local wall-clock seconds, so `ContactModel.EpochDay` is the date `toLocalDate` gives. `LocalDate.now()` and `LocalDateTime.now()` read the clock in the server's zone; the model takes their values as the `now` and "today" parameters.
- Integer width: sort orders are Java `int` values, and the one sum the core computes on them is wrapped (`CategoryService.AddInt32`). The `Long` sequence counter is incremented by one per call and is modelled unbounded; it would take 2^63 calls to wrap.

## Findings

| source | as written | input that shows it | evidently intended | confidence | as-written member | corrected member |
|---|---|---|---|---|---|---|
| gestion-commerciale-backend/src/main/java/com/example/gestioncommerciale/service/CustomerService.java:145-152 | `setDefaultAddress` runs the bulk `unsetAllDefaultForCustomer` and then sets `isDefault = true` on the loaded address. Nothing is dirty before the bulk statement, so the AUTO flush writes nothing. If that address was already default, the entity is unchanged against its snapshot, so nothing is written back, while the bulk statement has already cleared the flag in the database. | a customer with one address that is already default; call `setDefaultAddress` on it | the address stays the customer's only default | medium, not executed | CustomerService.SetDefaultOnDefaultLosesIt | CustomerService.SetDefaultIsSole |
| gestion-commerciale-backend/src/main/java/com/example/gestioncommerciale/service/CustomerService.java:122-136 | `updateAddress` merges the form into the managed address and, when the result is default, runs the bulk `unsetAllDefaultForCustomer`, calls `setIsDefault(true)` and saves. The class-level `@Transactional` flushes in AUTO mode, so the dirty merged address is written, flag included, just before the bulk statement; that write becomes the snapshot. The bulk statement then clears the flag in the database, and at commit the entity still equals its snapshot, so nothing more is written. Every update whose merged address is default leaves the customer with no default, including a form that turns a non-default address default, which also clears the old default. | a customer whose only address is default; call `updateAddress` on it with a form whose city is "Lyon" (or with an empty form) | the address stays, or becomes, the customer's only default | medium, not executed | CustomerService.UpdateDefaultLosesIt | CustomerService.UpdateAddress |
