# Model-to-tool synthesis and faucet URLs of xrpl-py's tool server

This project models two parts of the repository and proves properties about them.

The first part is `xrpl/server/models/enhanced_main.py`. It turns the domain model classes (transactions, requests, amounts, currencies) into callable tools. For each class it:

- reads the declared fields (`get_field_type_info`, `get_comprehensive_model_info`);
- builds a tool with a name and two parameter lists, required then optional (`create_dynamic_model_tool`);
- gives the tool's `implementation` closure six steps:
  1. map positional and keyword arguments onto parameter names;
  2. normalise each raw value (`convert_field_value`);
  3. drop `_meta` and `None` values;
  4. report missing required fields;
  5. check enum-typed fields;
  6. call the class constructor.

It also models `get_model_classes`, which picks the model classes out of a module, and the lookup of `get_model_schema`.

The second part is the faucet URL logic of `xrpl/asyncio/wallet/wallet_generation.py`:

- `_NETWORK_ID_URL_MAP`;
- `get_faucet_url`, which maps a network id to a faucet or to an exception per case;
- `process_faucet_host_url`, which rewrites a user-supplied host into a full URL with `urllib.parse`;
- the choice between the two inside `generate_faucet_wallet`.

Files, each one module:

| file | module | contents |
|---|---|---|
| `wrappers.dfy` | `Wrappers` | `Option`, `Result` |
| `strings.dfy` | `Strings` | ASCII predicates, `lower()`, `isdigit()`, decimal and hexadecimal numerals, `find`, `rstrip` |
| `values.dfy` | `PyValues` | the Python values a tool receives, their `str()`, and Python `==` against an enum value |
| `ordered_dicts.dfy` | `OrderedDicts` | an insertion-ordered Python dict as a sequence of pairs, with `d[k] = v` and `update` |
| `sequences.dfy` | `Sequences` | filtering, distinctness and "in the order of" facts |
| `field_types.dfy` | `FieldTypes` | type descriptors and per-field records of a model class |
| `value_conversion.dfy` | `ValueConversion` | `convert_field_value` |
| `model_tool.dfy` | `ModelTools` | the tool, its name and parameters, and the `implementation` closure |
| `model_registry.dfy` | `ModelRegistry` | `get_model_classes`, catalogue merging and `get_model_schema` |
| `faucet_url.dfy` | `FaucetUrls` | the faucet URL logic and the part of `urllib.parse` it relies on |

The Python code that works with loops becomes methods with `while` loops, each proved equal to a specification function about which the properties are proved:

- `GetComprehensiveModelInfo` equals the field records `FieldInfos`, a sequence comprehension over the declared fields.
- `CreateDynamicModelTool` equals the recursive `NamesWhere` for its two parameter lists.
- `Implementation`, which has five loops, equals the recursive `Invocation`.
- `GetModelClasses` equals the recursive `Catalogue`.

`GetModelSchema` has no loop of its own. It is a method because it calls `GetComprehensiveModelInfo`, and its `ensures` state the result in terms of `Merge` and `FieldInfos`. The rest is functions and lemmas.

Nothing outside the model's own values is called. The model takes these as parameters instead:

- `floatOf` stands for Python's `float(s)`.
- `construct` stands for the domain library's constructor followed by `to_xrpl()` or `to_dict()`.
- A module's members come as an ordered dict in `dir()` order, and a class's fields as a list in declaration order.

Behaviour of the code worth knowing:

- **Unknown keyword arguments** are not dropped. They reach the constructor after the same conversion and filtering as declared parameters (`ConstructorArguments`).
- **Amounts and currency codes** get no special handling in `convert_field_value`. A digit-only amount of at most 4300 digits becomes an integer, other than "0" and "1", which become booleans (`BooleanWords`, `DigitStringsBecomeIntegers`).
- **A digit string of more than 4300 digits** makes `int()` raise ValueError under CPython's default limit. That error is caught, and the string goes on to `float()`. This gives infinity when the string has more than about 309 significant digits, and then the OverflowError of `int(inf)` follows. Otherwise it gives a whole float, which becomes an integer (`LongDigitStringsGoToFloat`).
- **A constructor failure** comes back as the exception's text (`ConstructionFailed`). It carries no field schema.
- **Not every failure is caught.** An `OverflowError` from `int(float("inf"))` is raised in the conversion loop, which runs before the `try`. It therefore escapes the call: `OverflowEscaped`, `OverflowOutcome`.
- **The tool name in `get_model_schema`** is `"create_" + lower(name)`. It differs from the name the tool is registered under, which has the category in it (`SchemaToolNameIsNotRegistered`).
- **A field declared `List[E]` for an enum `E`** gets the enum check on its whole value. Its descriptor carries `E`, so the enum check compares the whole list value against the member names (`ListOfEnumRejectsLists`).
- **A required parameter passed as `None` is reported missing.** The code hands it to the conversion, gets `None` back and drops it. So being required makes no difference to the filtered arguments (`RequiredListIrrelevant`, `RequiredNoneIsMissing`).

Each operation of the source and the members whose contracts state what it does:

| operation | Dafny definition | stated by |
|---|---|---|
| `get_field_type_info` | `FieldTypes.GetFieldTypeInfo` | `TypeInfoOfUnwrapped` |
| `get_comprehensive_model_info` | `FieldTypes.FieldInfoOf`, `GetComprehensiveModelInfo` | `GetComprehensiveModelInfo` |
| tool name | `ModelTools.ToolName` | `ToolNameRoundTrip`, `ToolNamesCollide` |
| parameter split | `ModelTools.NamesWhere` | `CreateDynamicModelTool`, `NamesWhereFacts`, `NamesWhereCount`, `ParameterSplit`, `CreatedToolIsValid` |
| `d[k] = v`, `d.update(e)` | `OrderedDicts.Put`, `PutAll` | `PutLookup`, `PutKeys`, `PutAllLookup`, `PutAllKeys` |
| argument mapping | `ModelTools.Positional`, `MapArguments` | `PositionalLookup`, `MapArgumentsLookup`, `PositionalDistinct`, `MapArgumentsDistinct`, `ExtraPositionalIgnored` |
| `convert_field_value` | `ValueConversion.ConvertFieldValue` | its own `ensures`, `BooleanWords`, `DigitStringsBecomeIntegers`, `LongDigitStringsGoToFloat`, `HexOnlyForHexFields`, `NoHexWithoutPrefix`, `HexFieldsRoundTrip` |
| conversion loop | `ModelTools.FilterArguments` | `FilterOverflowExact`, `FilteredArguments`, `FilteredIsClean`, `RequiredListIrrelevant` |
| missing fields | `ModelTools.MissingRequired` | `MissingRequiredExact`, `MissingRequiredInclusion` |
| `str()`, Python `==` | `PyValues.PyStr`, `EqualsEnumValue` | `CollectionTextIsBracketed`, `AsValue` |
| enum check | `ModelTools.EnumAccepts`, `EnumCheck`, `EnumErrors` | `MembersAccepted`, `MembersPassEnumCheck`, `CollectionsNeverAccepted`, `ListOfEnumRejectsLists`, `EnumErrorsExact` |
| `implementation` | `ModelTools.Validate`, `Invocation` | `Implementation`, `MissingFieldsWhen`, `MissingFieldsReport`, `RequiredNoneIsMissing`, `OverflowOutcome`, `ConstructsOnlyValidated`, `ConstructorArguments`, `ValidationFailureIgnoresConstructor` |
| `get_model_classes` | `ModelRegistry.Catalogue` | `GetModelClasses`, `CatalogueExact`, `ModelClassesKept` |
| `get_model_schema` | `ModelRegistry.Merge` | `GetModelSchema`, `MergeKeys`, `MergeLookup`, `SchemaToolNameIsNotRegistered` |
| `get_faucet_url` | `FaucetUrls.GetFaucetUrl` | `FaucetUrlKnownNetworks`, `FaucetErrorMessageShape`, `FaucetErrorsDistinguish` |
| `urlparse`, `urlunparse` | `FaucetUrls.UrlParse`, `UrlUnparse` | `UrlParseOf`, `SplitPartsHaveNoMarks`, `UnsplitNoMarks` |
| `process_faucet_host_url` | `FaucetUrls.WithScheme`, `HostUrl`, `ProcessFaucetHostUrl` | `WithScheme`, `HostUrlOf`, `TrailingSlashIrrelevant`, `NoSchemeMeansHttps`, `BareHostGetsHttpsAndAccounts`, `HostAndPathGetHttps`, `ExplicitSchemeUrl`, `NoQueryOrFragment` |
| faucet choice in `generate_faucet_wallet` | `FaucetUrls.FaucetUrlFor` | `FaucetHostWins` |

## Model

| member | source | states |
|---|---|---|
| FieldTypes.TypeInfoOfUnwrapped | xrpl/server/models/enhanced_main.py:37-78 | the descriptor is optional exactly for `Optional[T]`; its list flag, item type and enum are those of the type under all `Optional` wrappers |
| FieldTypes.GetComprehensiveModelInfo | xrpl/server/models/enhanced_main.py:81-122 | one record per declared field, in order: its name, required exactly when its default is REQUIRED, its type descriptor, and default None if required, else its declared default |
| ModelTools.ToolNameRoundTrip | xrpl/server/models/enhanced_main.py:165 | for a category without `_`, the tool name splits back into the lower-cased category and class name |
| ModelTools.ToolNamesCollide | xrpl/server/models/enhanced_main.py:165 | two classes of one category get the same tool name exactly when their names agree up to case |
| ModelTools.CreateDynamicModelTool | xrpl/server/models/enhanced_main.py:125-169 | the tool has the composed name, the class, the field records of `get_comprehensive_model_info`, and the required and optional names in field order |
| ModelTools.NamesWhereCount | xrpl/server/models/enhanced_main.py:159-162 | every field goes to exactly one of the two lists: their lengths add up to the field count |
| ModelTools.NamesWhereFacts | xrpl/server/models/enhanced_main.py:135-162 | a field is in a list exactly when its required flag matches; the list has no repeats and follows field order |
| ModelTools.ParameterSplit | xrpl/server/models/enhanced_main.py:135-169 | a field is a required parameter iff its default is REQUIRED, optional iff not; both lists keep declaration order; `all_params` lists each field once |
| ModelTools.CreatedToolIsValid | xrpl/server/models/enhanced_main.py:169 | the tool of a model class has distinct parameter names |
| ModelTools.PositionalDistinct | xrpl/server/models/enhanced_main.py:219-222 | positional mapping never names a parameter twice |
| ModelTools.PositionalLookup | xrpl/server/models/enhanced_main.py:219-222 | a parameter gets the positional argument at its own index when there is one, and nothing else does |
| ModelTools.MapArgumentsDistinct | xrpl/server/models/enhanced_main.py:219-225 | the mapped arguments never name a parameter twice |
| ModelTools.MapArgumentsLookup | xrpl/server/models/enhanced_main.py:219-225 | a keyword argument overrides the positional one; otherwise a parameter has its positional argument, or no value |
| ModelTools.PositionalExtraIgnored | xrpl/server/models/enhanced_main.py:220-222 | positional arguments past the parameter count have no effect on the positional mapping |
| ModelTools.ExtraPositionalIgnored | xrpl/server/models/enhanced_main.py:219-225 | positional arguments past the parameter count have no effect on the mapped arguments |
| OrderedDicts.PutLookup | xrpl/server/models/enhanced_main.py:222 | after `d[k] = v`, `k` maps to `v` and every other key keeps its value |
| OrderedDicts.PutKeys | xrpl/server/models/enhanced_main.py:222 | `d[k] = v` keeps the key order and appends `k` only when it is new |
| OrderedDicts.PutAllLookup | xrpl/server/models/enhanced_main.py:225 | after `d.update(e)`, a key of `e` has `e`'s value; any other key keeps `d`'s value |
| OrderedDicts.PutAllKeys | xrpl/server/models/enhanced_main.py:225 | the keys after `d.update(e)` are exactly those of `d` and of `e` |
| ValueConversion.ConvertFieldValue | xrpl/server/models/enhanced_main.py:171-213 | non-strings pass through unchanged; the result is None exactly for None; OverflowError exactly for a string that is no boolean word, no digit string of at most 4300 digits, and that `float()` reads as infinite |
| ValueConversion.BooleanWords | xrpl/server/models/enhanced_main.py:177-181 | the words true/1/yes/on and false/0/no/off, in any case, become booleans before any numeric reading, so "1" and "0" are booleans |
| ValueConversion.DigitStringIsNoWord | xrpl/server/models/enhanced_main.py:177-184 | a digit string other than "0" and "1" is unchanged by lower-casing and is no boolean word |
| ValueConversion.DigitStringsBecomeIntegers | xrpl/server/models/enhanced_main.py:183-188 | any other digit string of at most 4300 digits becomes the integer it denotes, whatever the field |
| ValueConversion.NumeralsRoundTrip | xrpl/server/models/enhanced_main.py:183-188 | the decimal numeral of every n >= 2 with at most 4300 digits converts back to n |
| ValueConversion.LongDigitStringsGoToFloat | xrpl/server/models/enhanced_main.py:183-200 | a digit string over the limit takes the float path: OverflowError when `float()` gives infinity, the integer when it gives a whole number |
| ValueConversion.HexPrefixIsNoWord | xrpl/server/models/enhanced_main.py:177-184 | a `0x` string is neither a boolean word nor a digit string |
| ValueConversion.NoHexWithoutPrefix | xrpl/server/models/enhanced_main.py:190-213 | a string without the `0x` prefix that is no boolean word, no convertible digit string and no float is returned unchanged, in every field |
| ValueConversion.HexOnlyForHexFields | xrpl/server/models/enhanced_main.py:190-213 | a `0x` string that `float()` rejects becomes an integer exactly for `_id`/`_hash`/`_sequence` fields when `int(s, 16)` accepts it; otherwise it is returned unchanged |
| ValueConversion.HexLiteralRoundTrip | xrpl/server/models/enhanced_main.py:208-211 | `int("0x" + hex(n), 16) == n` |
| ValueConversion.HexFieldsRoundTrip | xrpl/server/models/enhanced_main.py:202-211 | the hexadecimal literal of n in a hex field converts back to n |
| ModelTools.FilterOverflowExact | xrpl/server/models/enhanced_main.py:228-237 | the conversion loop raises exactly when some argument other than `_meta` overflows; it names the first such argument |
| ModelTools.OverflowPersists | xrpl/server/models/enhanced_main.py:228-237 | once the loop has raised on a prefix, the later arguments do not change its result |
| ModelTools.FilteredArguments | xrpl/server/models/enhanced_main.py:228-237 | without overflow, the filtered arguments have distinct keys in the mapped arguments' order, and each key holds its converted, non-None value |
| ModelTools.FilteredIsClean | xrpl/server/models/enhanced_main.py:230-237 | `_meta` and None values never reach the filtered arguments |
| ModelTools.RequiredListIrrelevant | xrpl/server/models/enhanced_main.py:234-237 | the filtered arguments do not depend on the required list: a None goes to the conversion and comes back None |
| ModelTools.MissingRequiredExact | xrpl/server/models/enhanced_main.py:241-245 | the missing list holds exactly the required parameters with no filtered value, without repeats, in required order |
| ModelTools.MissingRequiredInclusion | xrpl/server/models/enhanced_main.py:241-245 | a required parameter with no filtered value is in the missing list |
| ModelTools.FindField | xrpl/server/models/enhanced_main.py:272-273 | the record of a field is found exactly when the class has a field of that name, and it is that field's record |
| ModelTools.EnumErrorsExact | xrpl/server/models/enhanced_main.py:270-290 | each error names a filtered argument, its value and the enum check's verdict; every rejected argument yields an error; errors follow argument order |
| PyValues.AsValue | xrpl/server/models/enhanced_main.py:282-286 | the argument carrying an enum member's value is a string or an integer that equals that value in Python's sense |
| ModelTools.MembersAccepted | xrpl/server/models/enhanced_main.py:276-288 | every member of an enum passes the check, both by its name and by its value |
| ModelTools.MembersPassEnumCheck | xrpl/server/models/enhanced_main.py:272-290 | a member's name or value given for an enum-typed field yields no error |
| PyValues.CollectionTextIsBracketed | xrpl/server/models/enhanced_main.py:279 | the `str()` of a list or dict starts with a bracket |
| ModelTools.CollectionsNeverAccepted | xrpl/server/models/enhanced_main.py:275-290 | a list or dict value is never accepted by an enum whose member names are identifiers |
| ModelTools.ListOfEnumRejectsLists | xrpl/server/models/enhanced_main.py:270-290 | for a field declared `List[E]`, every list argument yields an enum error |
| ModelTools.Implementation | xrpl/server/models/enhanced_main.py:217-311 | the closure's loops give the outcome of the call: overflow, missing fields, enum errors, or the constructor's success or failure |
| ModelTools.RequiredDistinct | xrpl/server/models/enhanced_main.py:169 | the required parameters of a well-formed tool are distinct |
| ModelTools.MissingFieldsWhen | xrpl/server/models/enhanced_main.py:241-267 | without overflow, the call reports missing fields exactly when some required parameter has no surviving value |
| ModelTools.MissingFieldsReport | xrpl/server/models/enhanced_main.py:246-267 | the report lists exactly the missing required fields in order; the class name; both parameter lists; and the provided fields in argument order |
| ModelTools.RequiredNoneIsMissing | xrpl/server/models/enhanced_main.py:234-246 | a required parameter passed by keyword as None is reported missing, unless an overflow escapes first |
| ModelTools.OverflowOutcome | xrpl/server/models/enhanced_main.py:228-239 | the OverflowError escapes the call exactly when some argument overflows, and it names the first one |
| ModelTools.ConstructsOnlyValidated | xrpl/server/models/enhanced_main.py:292-311 | the constructor's result is the call's result exactly when validation passed |
| ModelTools.ConstructorArguments | xrpl/server/models/enhanced_main.py:241-301 | arguments that reach the constructor: every required parameter present; no `_meta`; no None; exactly the surviving converted values; every enum check passed |
| ModelTools.ValidationFailureIgnoresConstructor | xrpl/server/models/enhanced_main.py:246-298 | when validation fails the constructor is not consulted: the outcome is the same for any constructor and is neither a model nor a construction failure |
| ModelRegistry.GetModelClasses | xrpl/server/models/enhanced_main.py:366-382 | the loop builds the catalogue of kept model classes in `dir()` order |
| ModelRegistry.CatalogueExact | xrpl/server/models/enhanced_main.py:366-382 | a name maps to the module's class exactly when it is a BaseModel subclass other than BaseModel whose name passes the three name tests; keys are distinct and in `dir()` order |
| ModelRegistry.ModelClassesKept | xrpl/server/models/enhanced_main.py:372-380 | a module entry is in the catalogue iff it is such a class with such a name |
| ModelRegistry.MergeKeys | xrpl/server/models/enhanced_main.py:505-511 | a name is in the merged catalogue exactly when some catalogue has it |
| ModelRegistry.MergeLookup | xrpl/server/models/enhanced_main.py:505-511 | the merged catalogue takes a name's class from the last catalogue that has the name |
| ModelRegistry.GetModelSchema | xrpl/server/models/enhanced_main.py:493-538 | not found exactly when no catalogue has the name, with all merged names as available; otherwise that class's field records and the tool name `create_<lower(name)>` |
| ModelRegistry.SchemaToolNameIsNotRegistered | xrpl/server/models/enhanced_main.py:525 | that tool name never equals the name the tool was registered under |
| FaucetUrls.FaucetUrlKnownNetworks | xrpl/asyncio/wallet/wallet_generation.py:17-21 | only networks 1 and 2 have a faucet, the testnet and the devnet one |
| FaucetUrls.FaucetErrorMessageShape | xrpl/asyncio/wallet/wallet_generation.py:180-199 | every other id raises; 262 and 0 both start with 'C' but differ in length; negatives start with 'U'; other positives start with 'T' |
| FaucetUrls.UnknownNetworkMessageInjective | xrpl/asyncio/wallet/wallet_generation.py:195-199 | two positive ids give the same "no known faucet" message exactly when they are equal |
| FaucetUrls.FaucetErrorsDistinguish | xrpl/asyncio/wallet/wallet_generation.py:165-199 | two ids outside {1, 2} raise the same error exactly when they are equal or both negative |
| FaucetUrls.FaucetHostWins | xrpl/asyncio/wallet/wallet_generation.py:64-72 | a given host decides the URL; without one the network id does, and there is an error exactly when neither gives a URL |
| FaucetUrls.WithScheme | xrpl/asyncio/wallet/wallet_generation.py:125-131 | the result contains `://` and ends with the input stripped of trailing `/`; it is that stripped input exactly when it has `://`, and `https://` in front of it otherwise |
| FaucetUrls.TrailingSlashIrrelevant | xrpl/asyncio/wallet/wallet_generation.py:125 | a trailing `/` does not change the result |
| FaucetUrls.NoSchemeMeansHttps | xrpl/asyncio/wallet/wallet_generation.py:124-162 | input without `://`, and with something left after stripping trailing slashes, gives what the same input with `https://` in front gives |
| FaucetUrls.HostAndPathGetHttps | xrpl/asyncio/wallet/wallet_generation.py:124-162 | a host followed by a path and no scheme, `h/x`, becomes `https://h/x` |
| FaucetUrls.BareHostWithScheme | xrpl/asyncio/wallet/wallet_generation.py:125-131 | a bare host gets `https://` prepended |
| FaucetUrls.UrlParseOf | xrpl/asyncio/wallet/wallet_generation.py:134 | `urlparse` of `scheme://host/path?...` gives the lower-cased scheme, the host as netloc, and the path |
| FaucetUrls.SplitSchemeAt | xrpl/asyncio/wallet/wallet_generation.py:134 | a letter scheme before the first `:` is split off and lower-cased |
| FaucetUrls.SplitNetlocAt | xrpl/asyncio/wallet/wallet_generation.py:134 | after `//` the netloc runs to the next `/`, `?` or `#` |
| FaucetUrls.PathBeforeMarks | xrpl/asyncio/wallet/wallet_generation.py:134 | the path is what precedes the query and the fragment |
| FaucetUrls.BareHostParse | xrpl/asyncio/wallet/wallet_generation.py:134 | `https://host` parses to scheme `https`, netloc `host` and an empty path |
| FaucetUrls.HostUrlOf | xrpl/asyncio/wallet/wallet_generation.py:139-160 | with a scheme and a netloc, the result is `scheme://netloc` plus the path, or `/accounts` when there is none |
| FaucetUrls.BareHostGetsHttpsAndAccounts | xrpl/asyncio/wallet/wallet_generation.py:124-162 | a bare host `h` becomes `https://h/accounts` |
| FaucetUrls.ExplicitSchemeUrl | xrpl/asyncio/wallet/wallet_generation.py:124-162 | an explicit scheme is lower-cased and kept; the host is kept; an empty path becomes `/accounts`; a query or fragment is dropped |
| FaucetUrls.SplitPartsHaveNoMarks | xrpl/asyncio/wallet/wallet_generation.py:134 | the scheme, netloc and path `urlparse` returns contain no `?` or `#` |
| FaucetUrls.UnsplitNoMarks | xrpl/asyncio/wallet/wallet_generation.py:160 | `urlunparse` without query and fragment adds no `?` or `#` |
| FaucetUrls.HostUrlNoMarks | xrpl/asyncio/wallet/wallet_generation.py:139-160 | the rebuilt URL contains no `?` or `#` when its parts contain none |
| FaucetUrls.NoQueryOrFragment | xrpl/asyncio/wallet/wallet_generation.py:112-162 | the result never carries a query or a fragment |

## Left out

- Floating point: what `float(s)` makes of a string is the parameter `floatOf`. The model does not say which strings Python reads as floats.
- The `python_type` text of a descriptor, the enum and field descriptions, the class docstrings, and the docstring search by regular expression (enhanced_main.py lines 94-109 and 138-156). They are only documentation text.
- The `inspect.Signature`, the function name and docstring, and the registration with `mcp.tool` (enhanced_main.py lines 323-363). These are framework calls the model cannot see. Parameter names and their order are modelled by the tool's lists.
- The module-level registration loops and their `print` output (enhanced_main.py lines 385-438, 541). Each loop applies the modelled operations to one module. Python reflection (`dir`, `getattr`, `issubclass`) becomes the `ModuleMember` input.
- `list_available_model_tools` (enhanced_main.py lines 441-490) is not modelled. It only reports counts and docstrings of the catalogues that `GetModelClasses` models, apart from the `create_<name>` tool name it shares with `get_model_schema`.
- The text of the error outcomes is left out. Missing fields, enum errors and the construction failure are structured values. The repr quoting of values in the enum message is left out too.
- `str()` of a float is part of the `floatOf` answer. `str()` of other values follows Python for `None`, booleans, integers, strings, lists and dicts of such values. String items inside collections are quoted without escaping.
- `lower()`, `isdigit()`, `int()` and `int(s, 16)` are ASCII-only. Non-ASCII letters, Unicode decimal digits and Unicode whitespace (such as U+00A0, which `int()` strips) are not modelled: for such text the model treats the value as no digit string and as no hexadecimal literal, and returns it unchanged.
- Enum member values are strings or integers (`EnumValue`), as in the enums the tools are built from. Enums with values of other types are not modelled.
- Declared types come in the normal form of `typing.get_args`: unions are flat and have at least two alternatives. `TypeShape` itself also admits nested and one-alternative unions, and on those `GetFieldTypeInfo` need not agree with Python, which never produces them.
- The 4300-digit limit of `int()` is CPython's default. A program that changes it with `sys.set_int_max_str_digits` is not modelled.
- `generate_faucet_wallet`'s wallet creation, HTTP funding request, balance polling, timeouts and sequence lookup (wallet_generation.py lines 62 and 74-110, and 202-236). This is network I/O. Only the URL choice in lines 64-72 is modelled, with the client's network id as a parameter.
- FaucetUrls.ProcessFaucetHostUrl: stated only for input that is ASCII, has no character at or below the space (DEL is admitted), and has no square brackets (`SupportedUrlText`). On other input CPython's `urlsplit` strips and removes characters, checks IPv6 brackets and, for a non-ASCII netloc, checks its NFKC form. Both checks can raise ValueError, which `process_faucet_host_url` does not catch. None of this is modelled. `urllib.parse` is modelled after CPython 3.11.
- FaucetUrls.ExplicitSchemeUrl: stated for letter-only schemes and paths without `;`. Other schemes and params are parsed by the model but have no lemma of their own.
