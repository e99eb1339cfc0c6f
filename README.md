# EnumHelper status descriptions

A model of `EnumHelper.GetDescription` in the library management application.
This helper turns a status code into the sentence shown to a user. Three status
enumerations are known:

- `LoanExtensionStatus`: the outcome of extending a book loan.
- `LoanReturnStatus`: the outcome of returning a book.
- `MembershipRenewalStatus`: the outcome of renewing a patron's membership.

Each enumeration has its own read-only description table. `GetDescription`
returns `""` for a null argument. For a code of a known enumeration it returns
that code's entry in its enumeration's table. For a value of any other
enumeration it returns the value's own name.

Files:

- `enums.dfy` (module `Enums`): the three enumerations as closed datatypes.
  Their codes are taken from the table keys. Also the set of all codes of each
  enumeration.
- `enum_helper.dfy` (module `EnumHelper`): the argument as a tagged union
  `StatusValue` (`Null`, one variant per known enumeration, `OtherEnum(name)`).
  Also the three tables as `const` maps, the completeness and non-emptiness
  lemmas, and `GetDescription`.
- `enum_helper_properties.dfy` (module `EnumHelperProperties`): the exact
  sentence for every code, and distinctness within a table. Also the one
  sentence shared between two tables.

The C# `switch` on the runtime type becomes a `match` on the `StatusValue`
tag. The source checks `MembershipRenewalStatus` first, then
`LoanReturnStatus`, then `LoanExtensionStatus`. The three types are disjoint,
so this order cannot change the result. The model keeps the order anyway.

In C#, the dictionary indexer throws `KeyNotFoundException` when a key is
missing. In the model, each lookup is guarded by a proof that every code of
the enumeration is a key of its table, so the lookup never misses.

A C# collection initializer adds its entries one by one and throws on a
duplicate key. A Dafny map display would keep the last entry silently instead.
The table-size clauses of the completeness lemmas (5, 4 and 5 entries) show
that the source's initializers have no duplicate keys.

## Model

| member | source | states |
|---|---|---|
| `Enums.LoanExtensionCodesAll` | src/Library.ApplicationCore/Enums/EnumHelper.cs:9-13 | every `LoanExtensionStatus` value is one of the five listed codes, and the five codes are distinct |
| `Enums.LoanReturnCodesAll` | src/Library.ApplicationCore/Enums/EnumHelper.cs:18-21 | every `LoanReturnStatus` value is one of the four listed codes, and the four codes are distinct |
| `Enums.MembershipRenewalCodesAll` | src/Library.ApplicationCore/Enums/EnumHelper.cs:26-30 | every `MembershipRenewalStatus` value is one of the five listed codes, and the five codes are distinct |
| `EnumHelper.LoanExtensionTableComplete` | src/Library.ApplicationCore/Enums/EnumHelper.cs:7-14 | the key set of the loan extension table is exactly the set of all codes, with 5 entries, so the lookup on line 45 never misses |
| `EnumHelper.LoanReturnTableComplete` | src/Library.ApplicationCore/Enums/EnumHelper.cs:16-22 | the key set of the loan return table is exactly the set of all codes, with 4 entries, so the lookup on line 43 never misses |
| `EnumHelper.MembershipRenewalTableComplete` | src/Library.ApplicationCore/Enums/EnumHelper.cs:24-31 | the key set of the membership renewal table is exactly the set of all codes, with 5 entries, so the lookup on line 41 never misses |
| `EnumHelper.LoanExtensionDescriptionsNonEmpty` | src/Library.ApplicationCore/Enums/EnumHelper.cs:9-13 | every loan extension code has an entry, and that entry is a non-empty string |
| `EnumHelper.LoanReturnDescriptionsNonEmpty` | src/Library.ApplicationCore/Enums/EnumHelper.cs:18-21 | every loan return code has an entry, and that entry is a non-empty string |
| `EnumHelper.MembershipRenewalDescriptionsNonEmpty` | src/Library.ApplicationCore/Enums/EnumHelper.cs:26-30 | every membership renewal code has an entry, and that entry is a non-empty string |
| `EnumHelper.GetDescription` | src/Library.ApplicationCore/Enums/EnumHelper.cs:33-48 | null gives `""`; a known status gives its table entry, and the key is always present; any other enumeration gives its own name unchanged; the result is `""` exactly when the input is null or an other enumeration whose name is empty, so a known status never yields `""` |
| `EnumHelperProperties.LoanExtensionDescriptions` | src/Library.ApplicationCore/Enums/EnumHelper.cs:9-13 | the exact sentence returned for each of the five loan extension codes |
| `EnumHelperProperties.LoanReturnDescriptions` | src/Library.ApplicationCore/Enums/EnumHelper.cs:18-21 | the exact sentence returned for each of the four loan return codes |
| `EnumHelperProperties.MembershipRenewalDescriptions` | src/Library.ApplicationCore/Enums/EnumHelper.cs:26-30 | the exact sentence returned for each of the five membership renewal codes |
| `EnumHelperProperties.LoanExtensionDescriptionIdentifiesCode` | src/Library.ApplicationCore/Enums/EnumHelper.cs:9-13 | two loan extension codes have the same description if and only if they are the same code |
| `EnumHelperProperties.LoanReturnDescriptionIdentifiesCode` | src/Library.ApplicationCore/Enums/EnumHelper.cs:18-21 | two loan return codes have the same description if and only if they are the same code |
| `EnumHelperProperties.MembershipRenewalDescriptionIdentifiesCode` | src/Library.ApplicationCore/Enums/EnumHelper.cs:26-30 | two membership renewal codes have the same description if and only if they are the same code |
| `EnumHelperProperties.CrossCategoryDescriptions` | src/Library.ApplicationCore/Enums/EnumHelper.cs:9-30 | a loan extension and a loan return description are equal if and only if both codes are `LoanNotFound` ("Loan not found."); no membership renewal description equals a description from either other table |
| `EnumHelperProperties.KnownStatusDescriptionsCollideOnlyOnLoanNotFound` | src/Library.ApplicationCore/Enums/EnumHelper.cs:7-45 | two known statuses have the same description if and only if they are the same status, or they are the two `LoanNotFound` codes of the extension and return categories |

## Left out

- What `Enum.ToString()` returns for an arbitrary enumeration is not modelled. Examples are flag combinations and numeric names for undefined values. An other enumeration is represented only by the name string it would print, and `GetDescription` returns that string.
- Out-of-range values of the known enumerations are not modelled. An example is `(LoanReturnStatus)99`, for which the C# indexer would throw `KeyNotFoundException`. The datatypes are closed, so this path cannot be expressed.
- The enumeration declarations are not part of this model. Their codes are taken from the table keys, and the underlying integer values are not modelled.
- Static initialisation order and thread safety of the `static readonly` tables are runtime concerns. The tables are `const` values here.
- The unused `using System.ComponentModel;` has no behaviour. No description attributes or reflection are involved.
- Calling `GetDescription` twice on the same input gives the same result. This holds because it is a Dafny function, so no separate lemma states it.
