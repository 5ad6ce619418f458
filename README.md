# Region catalog and cascading row editor

This project models the "DOM table" page of the repository. It has two parts.

- **The region catalog** (`RegionData`, `region_data.dfy`). Ten provinces `province1`…`province10` (labels `省1`…`省10`) are generated. Each code of one level gets exactly two children at the next level: city, district, street and village. A child's code is its parent's code plus `-city{n}`, `-district{n}`, `-street{n}` or `-village{n}`. A child's label is its parent's label plus `市{n}`, `区{n}`, `街道{n}` or `村{n}`.
  - `cities` is built by a spreading `reduce` over the provinces. It is modelled by the fold `Attach`, where `{...acc, [k]: v}` becomes the map update `acc[k := v]`.
  - `districts`, `streets` and `villages` are built by a `reduce` over `Object.values` of the level above, whose `forEach` assigns into the accumulator in place. This is the method `GatherChildren`, with nested loops. `GatherChildren` and `BuildLevel` are proved equal to the fold.
  - `Object.values` is the list of groups `Groups`, in insertion order. Every key starts with `province`, so no key is integer-like and insertion order is the enumeration order.
- **The editor** (`DomTable`, `dom_table.dfy`). A form holds two rows, each with a key, a personnel number and three drop-downs: province, city and district. The form store is the array `EditorForm.records`. The three methods model picking a value in row `index`.
  - The form stores the picked value.
  - For a province, the change handler then clears that row's city and district.
  - For a city, it clears that row's district.
  - A district pick clears nothing.
  - The effect of a pick is the pure function `Choose`.
  - The drop-down options are catalog lookups, with `(catalog[code] || [])` giving the empty list for an unset or unknown code.
  - The `shouldUpdate` test of the city cell and the `required` rules are modelled as predicates.

Every row is offered all ten provinces, so two rows may hold the same province (`DomTable.ProvinceOptionsShared`). The table always has the two initial rows, and only three levels are editable; streets and villages are generated but never offered.

## Model

| member | source | states |
|---|---|---|
| RegionData.Decimal | src/app/table/dom-table/data.ts:9-10 | the decimal rendering of `${n}` has at least one digit, and exactly one digit when n < 10 |
| RegionData.DecimalInjective | src/app/table/dom-table/data.ts:9-10 | distinct numbers render as distinct strings, so distinct indices give distinct codes |
| RegionData.ProvincesShape | src/app/table/dom-table/data.ts:8-11 | there are exactly 10 provinces; entry i has value `province{i+1}` and label `省{i+1}`; values are pairwise distinct; the first is `province1`/`省1` and the last `province10`/`省10` |
| RegionData.ProvinceCodePrefix | src/app/table/dom-table/data.ts:10 | every province code starts with `province` (so it is never empty) |
| RegionData.Expand | src/app/table/dom-table/data.ts:17-20 | expanding a level gives exactly two options per parent |
| RegionData.ExpandAt | src/app/table/dom-table/data.ts:17-20 | position j of the expanded level is child j mod 2 of parent j div 2: children stay grouped by parent, in parent order |
| RegionData.ChildrenShape | src/app/table/dom-table/data.ts:17-20 | a parent's two children have values `{parent}-{tag}1`, `{parent}-{tag}2` and labels `{parent label}{tag}1`, `{parent label}{tag}2` |
| RegionData.CityChildren | src/app/table/dom-table/data.ts:17-20 | the cities of a province `p` are `{p}-city1`/`{label}市1` and `{p}-city2`/`{label}市2` |
| RegionData.DistrictChildren | src/app/table/dom-table/data.ts:30-33 | the districts of a city `c` are `{c}-district1`/`{label}区1` and `{c}-district2`/`{label}区2` |
| RegionData.StreetChildren | src/app/table/dom-table/data.ts:43-46 | the streets of a district `d` are `{d}-street1`/`{label}街道1` and `{d}-street2`/`{label}街道2` |
| RegionData.VillageChildren | src/app/table/dom-table/data.ts:56-59 | the villages of a street `s` are `{s}-village1`/`{label}村1` and `{s}-village2`/`{label}村2` |
| RegionData.ChildExtendsParent | src/app/table/dom-table/data.ts:17-20 | every child's value starts with its parent's value followed by `-`, and its label starts with the parent's label |
| RegionData.ChildValuesDiffer | src/app/table/dom-table/data.ts:17-20 | two children share a value only if they are the same child of parents with the same value |
| RegionData.ExpandDistinct | src/app/table/dom-table/data.ts:26-36 | expanding a level of distinct codes gives a level of distinct codes |
| RegionData.LevelStep | src/app/table/dom-table/data.ts:26-36 | if level d-1 has distinct codes then so does level d |
| RegionData.LevelDistinct | src/app/table/dom-table/data.ts:8-62 | every one of the five levels has pairwise distinct codes (proved by a loop over the levels) |
| RegionData.ParentsDistinct | src/app/table/dom-table/data.ts:8-62 | the parents of every catalog have distinct codes |
| RegionData.AttachKeys | src/app/table/dom-table/data.ts:14-23 | the accumulation adds exactly one key per parent: its keys are the initial keys plus the parents' values |
| RegionData.AttachKeeps | src/app/table/dom-table/data.ts:14-23 | an entry whose key is no parent's value is left as it was |
| RegionData.AttachSnoc | src/app/table/dom-table/data.ts:29-34 | accumulating one more parent is one more map update |
| RegionData.AttachAt | src/app/table/dom-table/data.ts:29-34 | with distinct parents, each parent's key ends up mapped to its own two children, and no later parent overwrites it |
| RegionData.AttachShape | src/app/table/dom-table/data.ts:14-23 | over distinct parents the generated map has exactly the parents' values as keys, one key per parent, each mapped to that parent's two children |
| RegionData.AttachParent | src/app/table/dom-table/data.ts:14-23 | every key of the generated map is the value of some parent, and it holds that parent's children |
| RegionData.AttachValuesAreExpand | src/app/table/dom-table/data.ts:26-36 | the values stored in a generated map are exactly the codes of the next level, in both directions |
| RegionData.FlattenSnoc | src/app/table/dom-table/data.ts:26-28 | flattening a list of groups with one more group appends that group |
| RegionData.GroupsFlatten | src/app/table/dom-table/data.ts:26-28 | the concatenated `Object.values` of a catalog is the next level's option list |
| RegionData.GroupsAreCatalogValues | src/app/table/dom-table/data.ts:26-28 | `Object.values` of a catalog has one group per key, and group i is the entry of the i-th parent |
| RegionData.GatherChildren | src/app/table/dom-table/data.ts:26-36 | the reduce with an in-place `forEach` assignment produces exactly the map of the fold over the flattened groups |
| RegionData.BuildLevel | src/app/table/dom-table/data.ts:26-62 | running that reduce over `Object.values` of the level above produces the catalog of districts, streets or villages |
| RegionData.CatalogShape | src/app/table/dom-table/data.ts:14-62 | a catalog's keys are exactly the codes of the level above, it has one key per code, and each key maps to that parent's two children |
| RegionData.CatalogEntry | src/app/table/dom-table/data.ts:14-62 | each catalog entry has two options whose values extend the key with `-` |
| RegionData.CatalogAt | src/app/table/dom-table/data.ts:14-62 | the key of the i-th parent maps to exactly that parent's two children |
| RegionData.CatalogLookup | src/app/table/dom-table/data.ts:14-62 | a code is a key of a catalog exactly when it is a code of the level above; its entry then has two options extending it with `-` |
| RegionData.LevelSizes | src/app/table/dom-table/data.ts:8-62 | the levels have 10, 20, 40, 80 and 160 options; `cities`, `districts`, `streets` and `villages` have 10, 20, 40 and 80 keys |
| RegionData.NextKeysAreChildren | src/app/table/dom-table/data.ts:26-62 | the keys of each catalog below `cities` are exactly the option values of the catalog above |
| RegionData.CodesUnique | src/app/table/dom-table/data.ts:14-62 | two options in a catalog share a value only if they are the same option under the same key |
| RegionData.FirstProvinceCities | src/app/table/dom-table/data.ts:8-23 | the first province is `province1`/`省1`, and its cities are `province1-city1`/`省1市1` and `province1-city2`/`省1市2` |
| RegionData.Provinces | src/app/table/dom-table/data.ts:8-11 | definition of `provinces`; contract in ProvincesShape and ProvinceCodePrefix |
| RegionData.ChildrenOf | src/app/table/dom-table/data.ts:17-20 | definition of `[1, 2].map(...)` under one parent; contract in ChildrenShape, ChildExtendsParent and ChildValuesDiffer |
| RegionData.Attach | src/app/table/dom-table/data.ts:14-23 | the accumulation step of every generator reduce; contract in AttachKeys, AttachKeeps, AttachSnoc and AttachAt |
| RegionData.Generate | src/app/table/dom-table/data.ts:14-23 | a generator run from the empty object `{}`; contract in AttachShape, AttachParent and AttachValuesAreExpand |
| RegionData.Catalog | src/app/table/dom-table/data.ts:14-62 | the catalog of one level; contract in CatalogShape, CatalogEntry, CatalogAt, CatalogLookup and CodesUnique |
| RegionData.Cities | src/app/table/dom-table/data.ts:14-23 | definition of `cities`; contract in CatalogShape, CatalogLookup, LevelSizes and FirstProvinceCities |
| RegionData.Districts | src/app/table/dom-table/data.ts:26-36 | definition of `districts`; contract in CatalogShape, NextKeysAreChildren and LevelSizes |
| RegionData.Streets | src/app/table/dom-table/data.ts:39-49 | definition of `streets`; contract in CatalogShape, NextKeysAreChildren and LevelSizes |
| RegionData.Villages | src/app/table/dom-table/data.ts:52-62 | definition of `villages`; contract in CatalogShape, NextKeysAreChildren and LevelSizes |
| RegionData.Groups | src/app/table/dom-table/data.ts:26-28 | `Object.values` of a catalog; contract in GroupsFlatten and GroupsAreCatalogValues |
| DomTable.Choose | src/app/table/dom-table/page.tsx:65-111 | after a pick the chosen cell holds the value, every cell below it is unset, and every cell above it, the key and the personnel number are unchanged |
| DomTable.InitialShape | src/app/table/dom-table/page.tsx:28-43 | there are exactly two initial rows, keys `1`/`2` and personnel numbers `1001`/`1002`, with every cell unset; neither row passes validation; both offer no cities and no districts |
| DomTable.CityOptionsSpec | src/app/table/dom-table/page.tsx:114 | the city drop-down offers options exactly when the row's province is one of the ten province codes; it then offers two cities, each extending the province code with `-` |
| DomTable.DistrictOptionsSpec | src/app/table/dom-table/page.tsx:143 | the district drop-down offers options exactly when the row's city is one of the twenty city codes; it then offers two districts, each extending the city code with `-` |
| DomTable.OfferedCityHasDistricts | src/app/table/dom-table/page.tsx:114-149 | every city the city drop-down offers has exactly two districts to offer |
| DomTable.ProvinceOptionsShared | src/app/table/dom-table/page.tsx:73-77 | every row is offered the same ten provinces, including one another row already holds, and picking it keeps the row consistent |
| DomTable.ChooseKeepsConsistent | src/app/table/dom-table/page.tsx:58-149 | picking an offered option keeps a row whose set cells all hold offered options in that state |
| DomTable.EditKeepsAllConsistent | src/app/table/dom-table/page.tsx:58-149 | picking an offered option in one row keeps every row consistent |
| DomTable.ConsistentChain | src/app/table/dom-table/page.tsx:114-143 | in a consistent row, a set city extends the province code with `-` and a set district extends the city code with `-` |
| DomTable.ChooseValidation | src/app/table/dom-table/page.tsx:59-140 | after a province or city pick the row fails its `required` rules; after a district pick it passes exactly when province and city are filled and the district is non-empty |
| DomTable.ConsistentCompletePasses | src/app/table/dom-table/page.tsx:59-140 | a consistent row with a district chosen passes all three `required` rules |
| DomTable.ProvinceEditStale | src/app/table/dom-table/page.tsx:89-92 | a province pick in row i marks row j's city cell for re-derivation exactly when j = i and the province changed |
| DomTable.LowerEditNotStale | src/app/table/dom-table/page.tsx:89-92 | a city or district pick marks no row's city cell for re-derivation |
| DomTable.ChooseIdempotent | src/app/table/dom-table/page.tsx:65-111 | picking the same value twice in a row has the effect of picking it once |
| DomTable.InitialData | src/app/table/dom-table/page.tsx:28-43 | definition of `initialData`; contract in InitialShape |
| DomTable.Lookup | src/app/table/dom-table/page.tsx:114 | the catalog entry of a set code, or the empty list; contract in CityOptionsSpec and DistrictOptionsSpec |
| DomTable.CityOptions | src/app/table/dom-table/page.tsx:114 | the city drop-down's options; contract in CityOptionsSpec and OfferedCityHasDistricts |
| DomTable.DistrictOptions | src/app/table/dom-table/page.tsx:143 | the district drop-down's options; contract in DistrictOptionsSpec |
| DomTable.OptionsAt | src/app/table/dom-table/page.tsx:73-77 | the options of a row's drop-down at a level; contract in ProvinceOptionsShared and ChooseKeepsConsistent |
| DomTable.ProvinceAt | src/app/table/dom-table/page.tsx:90-91 | `records?.[index]?.province`; contract in ProvinceEditStale |
| DomTable.CityCellStale | src/app/table/dom-table/page.tsx:89-92 | the `shouldUpdate` test of the city cell; contract in ProvinceEditStale and LowerEditNotStale |
| DomTable.Filled | src/app/table/dom-table/page.tsx:61 | one `required` rule; contract in ChooseValidation |
| DomTable.RowPasses | src/app/table/dom-table/page.tsx:59-140 | the three `required` rules of a row; contract in ChooseValidation, ConsistentCompletePasses and InitialShape |
| DomTable.EditorForm.constructor | src/app/table/dom-table/page.tsx:28-43 | the form store starts as the two initial rows |
| DomTable.EditorForm.SelectProvince | src/app/table/dom-table/page.tsx:60-70 | row `index` gets the province and an unset city and district; every other row is unchanged |
| DomTable.EditorForm.SelectCity | src/app/table/dom-table/page.tsx:99-111 | row `index` gets the city and an unset district, with its province kept; every other row is unchanged |
| DomTable.EditorForm.SelectDistrict | src/app/table/dom-table/page.tsx:139-142 | only the district of row `index` changes; nothing is cleared |

## Left out

- The timing component `src/app/components/ShowPerformance/index.tsx` is not part of this model. It measures with `performance.mark`/`measure` and an animation-frame callback and reports floating-point durations. Its only logic is the busy flag `isInputStarted`, which a frame callback resets; the two durations it stores (`renderTime`, `inp`) are shown on screen and nothing else.
- The layouts, the navigation page and the canvas-table stub are not part of this model; they hold no logic.
- antd rendering is not modelled: the `Table`, the JSX, column titles, placeholders and validation messages. The rendered `Option` elements appear only as the option lists they are built from.
- DomTable.DistrictOptions: the district options are modelled as a fresh lookup of the row's current city. On the page, the district cell (page.tsx:134) is re-rendered through `dependencies` on the city field, and a clear made by `form.setFields` after a province pick may not re-render it. The page may then keep showing the previous city's districts until a city is picked. The model does not capture that stale list; a pick from it would make a row that is not `Consistent`.
- DomTable.EditorForm.SelectProvince: the Select component fires `onChange` only when the picked value differs from the current one. The model clears the city and district on every pick, including a re-pick of the same province.
- DomTable.EditorForm.SelectCity: the same applies to a re-pick of the same city.
- Validation is modelled as the three `required` predicates only. Asynchronous validation, error display and form submission are left out; the page never submits.
- A lookup `cities[province]` on a plain object would also find inherited members such as `toString`. The model treats only the object's own keys as keys. A drop-down can only hold one of its option codes, so such names never reach a lookup.
- RegionData.Decimal: its contract states only the length of the rendering. That the rendering is the usual base-10 spelling is its definition, and the lemmas use injectivity (DecimalInjective) and the concrete values `1` and `2`.
- The label field of `Area` is called `caption`, because `label` is a reserved word in Dafny.
