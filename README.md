# rc-collections: the Collection working set, in Dafny

`RcCollections\Collection` wraps one PHP array, its *working set*. The
constructor stores the caller's array. `map`, `filter` and `changeKeyCase`
each replace the working set with the result of a PHP builtin and return the
same instance, so chained calls act on one working set. `result` hands the
working set back.

The model has three modules:

- `PhpKey` (php_key.dfy): a PHP array key, either `IntKey` or `StrKey`. It
  also holds the ASCII case conversion that `array_change_key_case` applies to
  string keys, and PHP's rule for which strings are stored as integer keys
  (canonical decimal, no leading zero, "-0" excluded, inside the 64-bit
  range). It proves that case conversion never turns a normal string key into
  one PHP would store as an integer, and never the reverse. So a rekeyed array
  needs no integer normalisation.
- `PhpArray` (php_array.dfy): a PHP array as the sequence of its entries in
  iteration order. `IsArray` says its keys are distinct and in normal form.
  `Get` and `Put` model a read and a write of the hash table; a write to an
  existing key keeps that entry's place. The module defines the three builtins
  as pure functions and proves their properties:
  - `ArrayMap`: `array_map` with one array.
  - `ArrayFilterUseBoth`: `array_filter` with `ARRAY_FILTER_USE_BOTH`.
  - `ArrayChangeKeyCase`: `array_change_key_case`.
- `RcCollections` (collection.dfy): the class `Collection` with its `data`
  field, which every transformation reassigns, and `Valid()` (the working set
  is a PHP array). Client methods spell out chained calls.

Callables are Dafny function values: `V -> V` for `map` and
`(V, Key) -> bool` for `filter`. The callback receives the value first and the
key second, as `ARRAY_FILTER_USE_BOTH` passes them.

`array_change_key_case` writes the entries in order into a fresh array under
their converted keys. When two keys convert to the same key, the later write
replaces the value but the entry keeps the earlier one's place.
`ArrayChangeKeyCase` is defined the same way, by `Put` over the prefix. The
PHP builtin tests its `$case` argument only for being non-zero, so
`Collection.ChangeKeyCase` upper-cases for every value other than
`CASE_LOWER` (0).

src/RcCollections/Collection.php holds a constructor, `map`, `filter`,
`changeKeyCase` and `result`, and `filter` always passes
`ARRAY_FILTER_USE_BOTH`.

## Model

| member | source | states |
|---|---|---|
| `PhpKey.ConvertKeyNormal` | src/RcCollections/Collection.php:61 | a converted key is in PHP's normal form exactly when the original is: upper- or lower-casing never makes or unmakes an integer-like string key |
| `PhpKey.ConvertCaseIdempotent` | src/RcCollections/Collection.php:61 | converting an already converted string with the same case changes nothing |
| `PhpArray.Put` | src/RcCollections/Collection.php:61 | a write to a key keeps the key sequence when the key is present and appends the key when it is not; distinct keys stay distinct |
| `PhpArray.PutGet` | src/RcCollections/Collection.php:61 | after a write, the written key reads back the new value and every other key reads back what it held |
| `PhpArray.ArrayMap` | src/RcCollections/Collection.php:35 | same length; entry i keeps its key and position and holds `f` of its old value |
| `PhpArray.ArrayMapKeys` | src/RcCollections/Collection.php:33-38 | the key sequence after `map` is the key sequence before, order included |
| `PhpArray.ArrayMapIsArray` | src/RcCollections/Collection.php:35 | mapping a PHP array gives a PHP array |
| `PhpArray.ArrayMapGet` | src/RcCollections/Collection.php:35 | reading key k after `map` gives `f` of what k held, and nothing where k was absent |
| `PhpArray.ArrayMapCompose` | src/RcCollections/Collection.php:33-38 | two chained maps equal one map by the composed callable |
| `PhpArray.ArrayFilterUseBoth` | src/RcCollections/Collection.php:46-51 | every kept entry comes unchanged from the input and satisfies the callback on (value, key); every input entry that satisfies it is kept; the result is a subsequence of the input, so order holds and nothing is re-indexed |
| `PhpArray.SubsequenceElements` | src/RcCollections/Collection.php:48 | a subsequence is no longer than the input and holds only input entries |
| `PhpArray.SubsequenceIsArray` | src/RcCollections/Collection.php:48 | a subsequence of a PHP array has distinct, normal keys |
| `PhpArray.ArrayFilterGet` | src/RcCollections/Collection.php:46-51 | after `filter`, key k holds its old value when that value and k pass the callback, and is absent otherwise |
| `PhpArray.ArrayFilterIdempotent` | src/RcCollections/Collection.php:48 | filtering twice with the same callback is filtering once |
| `PhpArray.Dedup` | src/RcCollections/Collection.php:61 | holds exactly the elements of its input, each once, ordered by the index of their first occurrence in the input |
| `PhpArray.ArrayChangeKeyCase` | src/RcCollections/Collection.php:59-64 | the result's keys are distinct, and they are `Dedup` of the converted input keys: each converted key once, ordered by where it first occurs |
| `PhpArray.ArrayChangeKeyCaseGet` | src/RcCollections/Collection.php:61 | each key of the result holds the value of the last input entry whose key converts to it, and a key nothing converts to is absent |
| `PhpArray.ArrayChangeKeyCaseLastWins` | src/RcCollections/Collection.php:61 | when keys collide after conversion, the later entry's value is the one kept |
| `PhpArray.ArrayChangeKeyCaseKeyOrigin` | src/RcCollections/Collection.php:61 | every key of the result is the conversion of some input key |
| `PhpArray.ArrayChangeKeyCaseWithoutCollisions` | src/RcCollections/Collection.php:59-64 | with no collisions every entry stays in place: integer keys and all values unchanged, each string key lower- or upper-cased |
| `PhpArray.ArrayChangeKeyCaseIsArray` | src/RcCollections/Collection.php:61 | rekeying a PHP array gives a PHP array: keys unique and in normal form |
| `PhpArray.ArrayChangeKeyCaseIdempotent` | src/RcCollections/Collection.php:61 | applying it twice with the same case gives what applying it once gives |
| `PhpArray.ArrayChangeKeyCaseCollisionExample` | src/RcCollections/Collection.php:61 | ['a' => 1, 'b' => 2, 'A' => 3] lower-cased is ['a' => 3, 'b' => 2]: first place, last value |
| `RcCollections.Collection.constructor` | src/RcCollections/Collection.php:22-25 | the working set is exactly the array passed in, and it is a PHP array |
| `RcCollections.Collection.Map` | src/RcCollections/Collection.php:33-38 | returns the same instance; the new working set is `ArrayMap` of the old one and is still a PHP array |
| `RcCollections.Collection.Filter` | src/RcCollections/Collection.php:46-51 | returns the same instance; the new working set is `ArrayFilterUseBoth` of the old one and is still a PHP array |
| `RcCollections.Collection.ChangeKeyCase` | src/RcCollections/Collection.php:59-64 | returns the same instance; lower-cases by default (`CASE_LOWER`) and upper-cases for any other case value; the working set stays a PHP array |
| `RcCollections.Collection.Result` | src/RcCollections/Collection.php:71-74 | returns the working set, a PHP array, and modifies nothing |
| `RcCollections.ResultOfNew` | src/RcCollections/Collection.php:22-25 | `result()` on a fresh collection returns exactly the array it was built from |
| `RcCollections.MapFilterChangeKeyCase` | src/RcCollections/Collection.php:33-64 | a chain map, filter, changeKeyCase, result gives the composition of the three builtins on the original array |
| `RcCollections.UpperCaseKeys` | src/RcCollections/Collection.php:59-64 | `changeKeyCase(CASE_UPPER)` followed by `result()` gives the array with upper-cased string keys |
| `RcCollections.LowerCaseKeysByDefault` | src/RcCollections/Collection.php:59-64 | `changeKeyCase()` with no argument followed by `result()` gives the array with lower-cased string keys |
| `RcCollections.ChangeKeyCaseTwice` | src/RcCollections/Collection.php:59-64 | two chained changeKeyCase calls with the same case give the result of one |

## Left out

- The methods that tests/RcCollections/CollectionTest.php calls (`reverse`, `sumResult`, `unshift`, `arrayResult`, `jsonResult`) do not exist in src/RcCollections/Collection.php, so there is nothing to model them from.
- JSON encoding and serialisation: these are output formats of foreign library code.
- Callables are pure, total Dafny functions: side effects, exceptions and by-reference arguments inside a user callback are not modelled.
- `Collection.Filter`: PHP's loose truthiness of the callback's return value is reduced to `bool`.
- `Collection.Map`: the callback maps values to values of the same type `V`; in PHP it may return any type. `PhpArray.ArrayMap` itself allows a different result type.
- `Collection.ChangeKeyCase`: case conversion is ASCII only, as `array_change_key_case` does it independent of locale; multibyte strings are treated as their characters with no Unicode case mapping.
- Integer keys are assumed to fit a 64-bit platform's PHP integer, as `NormalKey` states. A 32-bit build's narrower range is not modelled.
- The identity of the PHP array: PHP copies arrays on write, so the constructor's argument and `result()`'s return are values. The model uses `seq` values in the same way and models no reference sharing.
