# Bloom filter and password-uniqueness screener

This project models the Bloom filter in `task1.py` and the password screener built on it.

- **The filter.** A `BloomFilter` holds a bit array of fixed length `size`. For each item it derives `numHashes` positions by calling one seeded hash with seeds `0 .. numHashes - 1` and reducing each result modulo `size`. `add` sets those bits and `check` tests that all of them are set.
- **The screener.** `check_password_uniqueness` walks a list of passwords in order. A password that already tests present is tagged "вже використаний" (already used). Any other password is tagged "унікальний" (unique) and added to the filter. A password the filter rejects is tagged "помилка: …" (error) with the filter's message, and the walk continues.

There are two modules:

- **`BloomFilters`** (`bloom_filter.dfy`) has the class `BloomFilter`.
  - `size`, `numHashes`, the hash and the array reference are `const` fields, so nothing can reassign them after construction.
  - `Add` is a method that `modifies` the array, and `Check` is a function that `reads` it.
  - Both are specified through value-level functions over the bits as a `seq<bool>`. `Mark` sets a list of positions. `AllMarked` tests them.
  - The lemmas about these functions give: idempotent add, no false negatives, bits never cleared, and a set-bit count that never falls.
- **`Screener`** (`screener.dfy`) has `CheckPasswordUniqueness`, a method with a loop.
  - Its loop invariant ties the filter's bits and the results map to a fold, `Screen`, over the rest of the list.
  - The lemmas about `Screen` give the properties of the outcome.

Design decisions:

- **The hash.** The seeded hash `mmh3.hash` is modelled as a value of type `Hasher = (string, nat) -> int`, handed to the filter when it is built. It is deterministic but otherwise arbitrary, so every proof holds for any hash.
- **The modulo and the `abs`.** Python's `%` with a positive divisor is already in `[0, size)`, and so is Dafny's `%`. `GetHash` keeps the `abs` that the source applies after the modulo, and it changes nothing.
- **Errors.** The `ValueError`s raised by `__init__`, `add` and `check` are modelled as `Err`/`Fail` values carrying the source's exact messages.
- **Bits.** The list of 0/1 ints is modelled as `array<bool>`.

Two points where the code differs from a textbook description of the filter:

- Each position is `hash % size` followed by `abs`, not `abs(hash) mod size`. So the `abs` overflow worry for the most negative hash value does not arise.
- The membership test is called `check`, and the errors are plain `ValueError`/`TypeError`.

## Model

| member | source | states |
|---|---|---|
| `BloomFilters.BloomFilter.Create` | task1.py:5-11 | fails with the configuration message exactly when `size <= 0` or `num_hashes <= 0`; otherwise a fresh filter with the given size, hash count and hash, and a bit array of length `size` with every bit clear |
| `BloomFilters.BloomFilter.constructor` | task1.py:9-11 | stores size, hash count and hash; allocates a fresh all-clear bit array of length `size` |
| `BloomFilters.BloomFilter.Positions` | task1.py:13-18 | exactly `numHashes` positions, the one at index `seed` being `hash(item, seed) % size`, all in `[0, size)` |
| `BloomFilters.BloomFilter.GetHash` | task1.py:13-18 | the loop with `abs` yields exactly `numHashes` positions, one per seed `0..numHashes-1` in order, each `hash(item, seed) % size` and in range; equal to `Positions(item)`, so the same item always yields the same list |
| `BloomFilters.BloomFilter.CheckOn` | task1.py:27-31 | on a given state of the bits: an error with the item message exactly when the item is empty; otherwise true iff the bit at `hash(item, seed) % size` is set for every seed |
| `BloomFilters.BloomFilter.Check` | task1.py:27-31 | read-only (`reads bits` only): error iff the item is empty, otherwise true iff every seed's bit is set in the current array |
| `BloomFilters.BloomFilter.Add` | task1.py:20-25 | the empty item fails with the item message and leaves the bits unchanged; otherwise succeeds and the new bits are `Mark` of the old bits at the item's positions (those set, nothing else changed, nothing cleared) |
| `BloomFilters.Mark` | task1.py:24-25 | setting positions keeps the length, and bit `i` is afterwards set iff it was set before or `i` is one of the positions |
| `BloomFilters.AllMarked` | task1.py:31 | the left-to-right `all` is true iff the bit at every listed position is set |
| `BloomFilters.MarkIdempotent` | task1.py:24-25 | adding the same positions twice gives the same bits as adding them once |
| `BloomFilters.MarkedAfterMark` | task1.py:24-31 | right after an item's positions are set, they all test set |
| `BloomFilters.MarkKeepsMarked` | task1.py:24-31 | setting further positions never unsets an item that tested present |
| `BloomFilters.MarkCountGrows` | task1.py:24-25 | the number of set bits never decreases when positions are set, and never exceeds the array length |
| `BloomFilters.BloomFilter.AddAll` | task1.py:20-25 | a run of `add` calls keeps the array length and never clears a bit |
| `BloomFilters.BloomFilter.AddAllKeepsPresent` | task1.py:20-31 | no false negatives: after a run of adds, every non-empty item added, at any point of the run, tests present |
| `Screener.Step` | task1.py:41-49 | one turn of the loop keeps the bit array length (its outcome is stated by `StepOutcome`) |
| `Screener.StepOutcome` | task1.py:42-49 | one turn: the empty password gets the error tag and no bit changes; a present password gets the used tag and no bit changes; any other gets the unique tag and its positions are set; only that password's entry of the results changes |
| `Screener.Screen` | task1.py:40-50 | the loop keeps the array length and its result keys are the earlier keys plus exactly the list's items |
| `Screener.ScreenGrows` | task1.py:47 | the loop never clears a bit |
| `Screener.ScreenKeepsMarked` | task1.py:47 | an item that tests present keeps testing present through the rest of the loop |
| `Screener.ScreenKeepsOthers` | task1.py:44-49 | entries for keys not in the list keep their earlier value |
| `Screener.ScreenAllPresent` | task1.py:40-50 | afterwards every non-empty password of the list tests present |
| `Screener.ScreenPresentIsUsed` | task1.py:43-44 | a non-empty password that tests present at the start ends up tagged used |
| `Screener.ScreenRepeatIsUsed` | task1.py:41-47 | a non-empty password that occurs twice ends up tagged used (the later occurrence overwrites the earlier tag) |
| `Screener.ScreenEmptyIsError` | task1.py:48-49 | the empty password ends up tagged with "помилка: " followed by the item message |
| `Screener.ScreenTagKinds` | task1.py:43-46 | every non-empty password ends up tagged used or unique |
| `Screener.ScreenUniqueWasAbsent` | task1.py:43-46 | a password tagged unique did not test present in the filter as it was given |
| `Screener.RepeatExample` | task1.py:40-50 | on a fresh filter `["a"]` tags "a" unique, and `["a", "b", "a"]` ends with "a" tagged used |
| `Screener.CheckPasswordUniqueness` | task1.py:34-50 | the final bits and results equal the `Screen` fold of the old bits over the list; keys are exactly the list's items; every non-empty password tests present afterwards; one present beforehand is tagged used; the empty password carries the error tag; the `add` that follows a check returning false is proved never to fail |
| `Screener.AddEach` | task1.py:57-58 | adding a list of items one by one leaves the bits `AddAll` of the old bits |
| `Screener.Demo` | task1.py:53-61 | the demonstration ends with exactly the four screened keys, "password123" and "admin123" tagged used, and "newpassword" and "guest" each tagged used or unique |

## Left out

- `task2.py`: log reading and JSON decoding, the HyperLogLog wrapper over an external library, the exact set count and its timing, and the floating-point error report are not part of this model.
- The internals of `mmh3.hash`: the hash is a parameter, so its 32-bit signed range is not modelled either. Only reduced values are ever used.
- False-positive probability and load factor: these are probabilistic statements about the hash, not provable for an arbitrary one. For the same reason `Demo` cannot fix the tags of "newpassword" and "guest".
- The `TypeError` checks of the screener (task1.py:35-38): the Dafny types already guarantee a non-null `BloomFilter` and a list of strings.
- Non-string items, and the `str(item)` conversion, which is the identity on strings: the empty string is the only invalid item in the model.
- Insertion order of the results dict: the results are a Dafny `map`, which has no order. A later occurrence overwriting an earlier one is modelled.
- Console output of the `__main__` block.
- `Screener.Demo`: the adds of the existing passwords go through `AddEach`, which skips empty items where Python would raise. All three demo items are non-empty, so this changes nothing.
