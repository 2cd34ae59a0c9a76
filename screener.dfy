/** `check_password_uniqueness`: tags each password of a list as already used or
    unique, adding the unique ones to the filter as it goes. */
module Screener {
  import opened BloomFilters

  /** Tag of a password that already tests present. */
  const UsedTag: string := "вже використаний"

  /** Tag of a password that does not test present (it is then added). */
  const UniqueTag: string := "унікальний"

  /** Tag of a password the filter rejected with `message`. */
  function ErrorTag(message: string): string {
    "помилка: " + message
  }

  /** One turn of the loop on a given state of the bits and of the results. */
  function Step(f: BloomFilter, b: seq<bool>, results: map<string, string>, p: string)
    : (next: (seq<bool>, map<string, string>))
    requires f.Valid() && |b| == f.size
    ensures |next.0| == f.size
  {
    match f.CheckOn(b, p)
    case Err(message) => (b, results[p := ErrorTag(message)])
    case Ok(present) =>
      if present then (b, results[p := UsedTag])
      else (Mark(b, f.Positions(p)), results[p := UniqueTag])
  }

  /** The whole loop over `ps`, from the given bits and results. */
  function Screen(f: BloomFilter, b: seq<bool>, results: map<string, string>, ps: seq<string>)
    : (out: (seq<bool>, map<string, string>))
    requires f.Valid() && |b| == f.size
    ensures |out.0| == f.size
    ensures out.1.Keys == results.Keys + set p | p in ps
    decreases |ps|
  {
    if ps == [] then (b, results)
    else
      var next := Step(f, b, results, ps[0]);
      assert (set p | p in ps) == {ps[0]} + set p | p in ps[1..];
      Screen(f, next.0, next.1, ps[1..])
  }

  /** One turn: the empty password is tagged with the error and changes no bit;
      a present one is tagged used and changes no bit; any other is tagged
      unique and gets its positions set. Only that password's entry changes. */
  lemma StepOutcome(f: BloomFilter, b: seq<bool>, results: map<string, string>, p: string)
    requires f.Valid() && |b| == f.size
    ensures var next := Step(f, b, results, p);
      && next.1.Keys == results.Keys + {p}
      && (forall k :: k in results && k != p ==> next.1[k] == results[k])
      && (p == [] ==> next.0 == b && next.1[p] == ErrorTag(ItemError))
      && (p != [] && AllMarked(b, f.Positions(p)) ==> next.0 == b && next.1[p] == UsedTag)
      && (p != [] && !AllMarked(b, f.Positions(p)) ==>
            next.0 == Mark(b, f.Positions(p)) && next.1[p] == UniqueTag)
  {
  }

  /** Bits are never cleared by the loop. */
  lemma {:induction false} ScreenGrows(f: BloomFilter, b: seq<bool>, results: map<string, string>, ps: seq<string>)
    requires f.Valid() && |b| == f.size
    ensures forall i :: 0 <= i < |b| && b[i] ==> Screen(f, b, results, ps).0[i]
    decreases |ps|
  {
    if ps != [] {
      var next := Step(f, b, results, ps[0]);
      ScreenGrows(f, next.0, next.1, ps[1..]);
    }
  }

  /** An item whose bits are all set stays so through the rest of the loop. */
  lemma ScreenKeepsMarked(f: BloomFilter, b: seq<bool>, results: map<string, string>, ps: seq<string>, qs: seq<nat>)
    requires f.Valid() && |b| == f.size && InRange(qs, |b|)
    requires AllMarked(b, qs)
    ensures AllMarked(Screen(f, b, results, ps).0, qs)
  {
    ScreenGrows(f, b, results, ps);
  }

  /** Keys the list does not mention keep their earlier value. */
  lemma {:induction false} ScreenKeepsOthers(f: BloomFilter, b: seq<bool>, results: map<string, string>, ps: seq<string>)
    requires f.Valid() && |b| == f.size
    ensures forall k :: k in results && k !in ps ==> Screen(f, b, results, ps).1[k] == results[k]
    decreases |ps|
  {
    if ps != [] {
      var next := Step(f, b, results, ps[0]);
      ScreenKeepsOthers(f, next.0, next.1, ps[1..]);
    }
  }

  /** Afterwards every non-empty password of the list tests present. */
  lemma {:induction false} ScreenAllPresent(f: BloomFilter, b: seq<bool>, results: map<string, string>, ps: seq<string>)
    requires f.Valid() && |b| == f.size
    ensures forall p :: p in ps && p != [] ==> f.CheckOn(Screen(f, b, results, ps).0, p) == Ok(true)
    decreases |ps|
  {
    if ps != [] {
      var next := Step(f, b, results, ps[0]);
      ScreenAllPresent(f, next.0, next.1, ps[1..]);
      if ps[0] != [] {
        var qs := f.Positions(ps[0]);
        if !AllMarked(b, qs) {
          MarkedAfterMark(b, qs);
        }
        assert AllMarked(next.0, qs);
        ScreenKeepsMarked(f, next.0, next.1, ps[1..], qs);
      }
    }
  }

  /** A non-empty password that tests present when its turn comes (or at the
      start) ends up tagged used. */
  lemma {:induction false} ScreenPresentIsUsed(f: BloomFilter, b: seq<bool>, results: map<string, string>, ps: seq<string>, p: string)
    requires f.Valid() && |b| == f.size
    requires p in ps && p != [] && AllMarked(b, f.Positions(p))
    ensures Screen(f, b, results, ps).1[p] == UsedTag
    decreases |ps|
  {
    var next := Step(f, b, results, ps[0]);
    if p in ps[1..] {
      if ps[0] != [] && !AllMarked(b, f.Positions(ps[0])) {
        MarkKeepsMarked(b, f.Positions(ps[0]), f.Positions(p));
      }
      ScreenPresentIsUsed(f, next.0, next.1, ps[1..], p);
    } else {
      assert ps[0] == p;
      ScreenKeepsOthers(f, next.0, next.1, ps[1..]);
    }
  }

  /** A non-empty password that occurs twice in the list ends up tagged used:
      its first occurrence puts it in the filter, the last one finds it there. */
  lemma {:induction false} ScreenRepeatIsUsed(f: BloomFilter, b: seq<bool>, results: map<string, string>, ps: seq<string>, i: nat, j: nat)
    requires f.Valid() && |b| == f.size
    requires i < j < |ps| && ps[i] == ps[j] && ps[i] != []
    ensures Screen(f, b, results, ps).1[ps[i]] == UsedTag
    decreases |ps|
  {
    var next := Step(f, b, results, ps[0]);
    if i == 0 {
      var qs := f.Positions(ps[0]);
      if !AllMarked(b, qs) {
        MarkedAfterMark(b, qs);
      }
      assert ps[1..][j - 1] == ps[j];
      ScreenPresentIsUsed(f, next.0, next.1, ps[1..], ps[0]);
    } else {
      assert ps[1..][i - 1] == ps[i] && ps[1..][j - 1] == ps[j];
      ScreenRepeatIsUsed(f, next.0, next.1, ps[1..], i - 1, j - 1);
    }
  }

  /** The empty password, wherever it occurs, ends up tagged with the error. */
  lemma {:induction false} ScreenEmptyIsError(f: BloomFilter, b: seq<bool>, results: map<string, string>, ps: seq<string>)
    requires f.Valid() && |b| == f.size
    requires "" in ps
    ensures Screen(f, b, results, ps).1[""] == ErrorTag(ItemError)
    decreases |ps|
  {
    var next := Step(f, b, results, ps[0]);
    if "" in ps[1..] {
      ScreenEmptyIsError(f, next.0, next.1, ps[1..]);
    } else {
      ScreenKeepsOthers(f, next.0, next.1, ps[1..]);
    }
  }

  /** Every non-empty password ends up tagged used or unique. */
  lemma {:induction false} ScreenTagKinds(f: BloomFilter, b: seq<bool>, results: map<string, string>, ps: seq<string>, p: string)
    requires f.Valid() && |b| == f.size
    requires p in ps && p != []
    ensures Screen(f, b, results, ps).1[p] in {UsedTag, UniqueTag}
    decreases |ps|
  {
    var next := Step(f, b, results, ps[0]);
    if p in ps[1..] {
      ScreenTagKinds(f, next.0, next.1, ps[1..], p);
    } else {
      ScreenKeepsOthers(f, next.0, next.1, ps[1..]);
    }
  }

  /** A password tagged unique did not test present in the filter it was given. */
  lemma ScreenUniqueWasAbsent(f: BloomFilter, b: seq<bool>, results: map<string, string>, ps: seq<string>, p: string)
    requires f.Valid() && |b| == f.size
    requires p in ps && Screen(f, b, results, ps).1[p] == UniqueTag
    ensures f.CheckOn(b, p) == Ok(false)
  {
    if p == [] {
      ScreenEmptyIsError(f, b, results, ps);
    } else if AllMarked(b, f.Positions(p)) {
      ScreenPresentIsUsed(f, b, results, ps, p);
    }
  }

  /** On a fresh filter, ["a", "b", "a"] ends with "a" tagged used, while "a"
      alone is tagged unique. */
  lemma RepeatExample(f: BloomFilter, b: seq<bool>)
    requires f.Valid() && |b| == f.size
    requires forall i :: 0 <= i < |b| ==> !b[i]
    ensures Screen(f, b, map[], ["a"]).1["a"] == UniqueTag
    ensures Screen(f, b, map[], ["a", "b", "a"]).1["a"] == UsedTag
  {
    assert !b[f.Positions("a")[0]];
    ScreenRepeatIsUsed(f, b, map[], ["a", "b", "a"], 0, 2);
  }

  /** `check_password_uniqueness`: walks the list in order, filling the results
      and adding each password that was not already present. */
  method CheckPasswordUniqueness(filter: BloomFilter, passwords: seq<string>) returns (results: map<string, string>)
    requires filter.Valid()
    modifies filter.bits
    ensures (filter.bits[..], results) == Screen(filter, old(filter.bits[..]), map[], passwords)
    ensures results.Keys == set p | p in passwords
    ensures forall p :: p in passwords && p != [] ==> filter.Check(p) == Ok(true)
    ensures forall p :: p in passwords && p != [] && old(filter.Check(p)) == Ok(true) ==> results[p] == UsedTag
    ensures "" in passwords ==> results[""] == ErrorTag(ItemError)
  {
    results := map[];
    var i := 0;
    while i < |passwords|
      invariant 0 <= i <= |passwords|
      invariant Screen(filter, filter.bits[..], results, passwords[i..])
             == Screen(filter, old(filter.bits[..]), map[], passwords)
    {
      var password := passwords[i];
      var checked := filter.Check(password);
      match checked {
        case Err(message) =>
          results := results[password := ErrorTag(message)];
        case Ok(present) =>
          if present {
            results := results[password := UsedTag];
          } else {
            results := results[password := UniqueTag];
            var added := filter.Add(password);
            assert added == Pass;
          }
      }
      assert passwords[i..][1..] == passwords[i + 1..];
      i := i + 1;
    }
    ghost var start := old(filter.bits[..]);
    ScreenAllPresent(filter, start, map[], passwords);
    forall p | p in passwords && p != [] && filter.CheckOn(start, p) == Ok(true)
      ensures results[p] == UsedTag
    {
      ScreenPresentIsUsed(filter, start, map[], passwords, p);
    }
    if "" in passwords {
      ScreenEmptyIsError(filter, start, map[], passwords);
    }
  }

  /** Adds every item of `items` in turn, as the demonstration does. */
  method AddEach(filter: BloomFilter, items: seq<string>)
    requires filter.Valid()
    modifies filter.bits
    ensures filter.bits[..] == filter.AddAll(old(filter.bits[..]), items)
  {
    for k := 0 to |items|
      invariant filter.bits[..] == filter.AddAll(old(filter.bits[..]), items[..k])
    {
      var added := filter.Add(items[k]);
      assert items[..k + 1][..k] == items[..k];
    }
    assert items[..|items|] == items;
  }

  /** The demonstration: a filter of 1000 bits and 3 hashes holding three
      passwords, then four passwords screened. Only the two that were added
      beforehand have an outcome that does not depend on the hash values. */
  method Demo(hash: Hasher) returns (results: map<string, string>)
    ensures results.Keys == {"password123", "newpassword", "admin123", "guest"}
    ensures results["password123"] == UsedTag && results["admin123"] == UsedTag
    ensures results["newpassword"] in {UsedTag, UniqueTag} && results["guest"] in {UsedTag, UniqueTag}
  {
    var created := BloomFilter.Create(1000, 3, hash);
    var bloom := created.value;
    var existing := ["password123", "admin123", "qwerty123"];
    ghost var start := bloom.bits[..];
    AddEach(bloom, existing);
    bloom.AddAllKeepsPresent(start, existing);
    assert existing[0] in existing && existing[1] in existing;
    assert bloom.Check("password123") == Ok(true) && bloom.Check("admin123") == Ok(true);
    var toCheck := ["password123", "newpassword", "admin123", "guest"];
    assert (set p | p in toCheck) == {"password123", "newpassword", "admin123", "guest"} by {
      assert toCheck[0] in toCheck && toCheck[1] in toCheck && toCheck[2] in toCheck && toCheck[3] in toCheck;
    }
    ghost var loaded := bloom.bits[..];
    results := CheckPasswordUniqueness(bloom, toCheck);
    assert toCheck[0] in toCheck && toCheck[2] in toCheck;
    ScreenTagKinds(bloom, loaded, map[], toCheck, "newpassword");
    ScreenTagKinds(bloom, loaded, map[], toCheck, "guest");
  }
}
