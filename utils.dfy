/** The helpers of `src/utils.py`: de-duplicating append, option-value
    extraction and CMake argument formatting. */
module Utils {
  import opened Wrappers
  import opened Strings

  /** No element occurs twice. */
  predicate NoDuplicates<T(==)>(s: seq<T>) {
    forall i, j :: 0 <= i < j < |s| ==> s[i] != s[j]
  }

  /** The set of elements of `s`. */
  function Elems<T>(s: seq<T>): set<T> {
    set x | x in s
  }

  /** The elements of a concatenation are those of its parts. */
  lemma {:induction false} ElemsAppend<T>(a: seq<T>, b: seq<T>)
    ensures Elems(a + b) == Elems(a) + Elems(b)
  {
    forall x ensures x in Elems(a + b) <==> x in Elems(a) + Elems(b) {
      assert x in a + b <==> x in a || x in b;
    }
  }

  /** A sequence is its prefix of length `i` followed by the rest. */
  lemma {:induction false} SplitAt<T>(s: seq<T>, i: nat)
    requires i <= |s|
    ensures s[..i] + s[i..] == s
  {
    assert forall k :: 0 <= k < |s| ==> (s[..i] + s[i..])[k] == s[k];
  }

  /** `list` holds every member of `seen` exactly once and nothing else. */
  predicate Tracks<T(==)>(list: seq<T>, seen: set<T>) {
    NoDuplicates(list) && Elems(list) == seen
  }

  /** `add_unique(item, target_list, seen_set)`: append `item` unless the
      seen-set already has it.  Python mutates both arguments in place; here the
      updated list and set are returned and the caller stores them back. */
  method AddUnique<T(==)>(item: T, targetList: seq<T>, seenSet: set<T>)
    returns (newList: seq<T>, newSeen: set<T>)
    ensures item in newSeen && newSeen == seenSet + {item}
    ensures item in seenSet ==> newList == targetList && newSeen == seenSet
    ensures item !in seenSet ==> newList == targetList + [item]
  {
    newList, newSeen := targetList, seenSet;
    if item !in seenSet {
      newList := newList + [item];
      newSeen := newSeen + {item};
    }
  }

  /** What `add_unique` leaves behind keeps a list in step with its seen-set:
      the list gains the item only when the set did not hold it. */
  lemma {:induction false} AddUniqueKeepsTracking<T>(list: seq<T>, seen: set<T>, item: T)
    requires Tracks(list, seen)
    ensures Tracks(if item in seen then list else list + [item], seen + {item})
  {
    if item !in seen {
      var l := list + [item];
      forall i, j | 0 <= i < j < |l| ensures l[i] != l[j] {
        if j == |list| {
          assert l[i] in Elems(list);
        }
      }
      ElemsAppend(list, [item]);
      assert Elems([item]) == {item};
    } else {
      assert seen + {item} == seen;
    }
  }

  /** What a run of `add_unique` calls with the items of `items`, in order,
      appends to a list whose seen-set starts as `seen`: each item that is not
      in `seen` and does not occur earlier in `items`. */
  function Fresh<T(==)>(items: seq<T>, seen: set<T>): seq<T>
  {
    if items == [] then []
    else
      var init, last := items[..|items| - 1], items[|items| - 1];
      Fresh(init, seen) + (if last in seen || last in init then [] else [last])
  }

  /** One more item: `Fresh` grows by it exactly when it was not seen yet. */
  lemma {:induction false} FreshSnoc<T>(items: seq<T>, item: T, seen: set<T>)
    ensures Fresh(items + [item], seen) == Fresh(items, seen) + (if item in seen + Elems(items) then [] else [item])
  {
    assert (items + [item])[..|items|] == items;
  }

  /** Two runs of `add_unique` calls one after the other: the second run sees
      everything the first one added to the seen-set. */
  lemma {:induction false} FreshAppend<T>(items: seq<T>, more: seq<T>, seen: set<T>)
    decreases |more|
    ensures Fresh(items + more, seen) == Fresh(items, seen) + Fresh(more, seen + Elems(items))
  {
    if more == [] {
      assert items + more == items;
    } else {
      var init, last := more[..|more| - 1], more[|more| - 1];
      assert more == init + [last];
      assert items + more == (items + init) + [last];
      FreshSnoc(items + init, last, seen);
      FreshAppend(items, init, seen);
      FreshSnoc(init, last, seen + Elems(items));
      ElemsAppend(items, init);
    }
  }

  /** Two runs of `add_unique` calls on the same list and seen-set, one after
      the other, make one run over both item sequences. */
  lemma {:induction false} FreshChain<T>(list0: seq<T>, seen0: set<T>, items: seq<T>, more: seq<T>,
                                         list1: seq<T>, seen1: set<T>, list2: seq<T>, seen2: set<T>)
    requires list1 == list0 + Fresh(items, seen0) && seen1 == seen0 + Elems(items)
    requires list2 == list1 + Fresh(more, seen1) && seen2 == seen1 + Elems(more)
    ensures list2 == list0 + Fresh(items + more, seen0) && seen2 == seen0 + Elems(items + more)
  {
    FreshAppend(items, more, seen0);
    ElemsAppend(items, more);
  }

  /** What is appended is exactly the items that were not seen before. */
  lemma {:induction false} FreshElems<T>(items: seq<T>, seen: set<T>, x: T)
    ensures x in Fresh(items, seen) <==> x in items && x !in seen
  {
    if items != [] {
      var init := items[..|items| - 1];
      assert items == init + [items[|items| - 1]];
      FreshElems(init, seen, x);
    }
  }

  /** Nothing is appended when every item was seen already. */
  lemma {:induction false} FreshOfSeen<T>(items: seq<T>, seen: set<T>)
    requires Elems(items) <= seen
    ensures Fresh(items, seen) == []
  {
    if items != [] {
      var init := items[..|items| - 1];
      assert Elems(init) <= Elems(items) by {
        forall x | x in Elems(init) ensures x in Elems(items) {
          var k :| 0 <= k < |init| && init[k] == x;
          assert items[k] == x;
        }
      }
      assert items[|items| - 1] in Elems(items);
      FreshOfSeen(init, seen);
    }
  }

  /** What is appended holds no duplicate. */
  lemma {:induction false} FreshNoDuplicates<T>(items: seq<T>, seen: set<T>)
    ensures NoDuplicates(Fresh(items, seen))
  {
    if items != [] {
      var init, last := items[..|items| - 1], items[|items| - 1];
      FreshNoDuplicates(init, seen);
      FreshElems(init, seen, last);
    }
  }

  /** A list that tracks its seen-set still does after a run of `add_unique`
      calls: no bucket ever gains a duplicate. */
  lemma {:induction false} FreshKeepsTracking<T>(list: seq<T>, seen: set<T>, items: seq<T>)
    requires Tracks(list, seen)
    ensures Tracks(list + Fresh(items, seen), seen + Elems(items))
  {
    var f := Fresh(items, seen);
    FreshNoDuplicates(items, seen);
    forall x ensures x in f <==> x in items && x !in seen {
      FreshElems(items, seen, x);
    }
    forall i, j | 0 <= i < j < |list + f| ensures (list + f)[i] != (list + f)[j] {
      if j >= |list| && i < |list| {
        assert (list + f)[i] in seen;
        assert (list + f)[j] in f;
      }
    }
    forall x ensures x in Elems(list + f) <==> x in seen + Elems(items) {
      assert x in list + f <==> x in list || x in f;
      assert x in list <==> x in Elems(list);
      assert x in items <==> x in Elems(items);
    }
    assert Elems(list + f) == seen + Elems(items);
  }

  /** The index of the first occurrence of `x` in `s`. */
  function FirstIndex<T(==)>(s: seq<T>, x: T): (k: nat)
    requires x in s
    ensures k < |s| && s[k] == x && x !in s[..k]
  {
    if s[0] == x then 0 else 1 + FirstIndex(s[1..], x)
  }

  /** The first occurrence of an element of a prefix lies in that prefix. */
  lemma {:induction false} FirstIndexPrefix<T>(s: seq<T>, n: nat, x: T)
    requires n <= |s| && x in s[..n]
    ensures FirstIndex(s, x) == FirstIndex(s[..n], x)
  {
    if s[0] != x {
      assert s[1..][..n - 1] == s[..n][1..];
      FirstIndexPrefix(s[1..], n - 1, x);
    }
  }

  /** Appended values keep first-seen order: a value placed before another
      was first seen earlier in `items`. */
  lemma {:induction false} FreshFirstSeenOrder<T>(items: seq<T>, seen: set<T>, i: nat, j: nat)
    requires i < j < |Fresh(items, seen)|
    ensures Fresh(items, seen)[i] in items && Fresh(items, seen)[j] in items
    ensures FirstIndex(items, Fresh(items, seen)[i]) < FirstIndex(items, Fresh(items, seen)[j])
  {
    var init, last := items[..|items| - 1], items[|items| - 1];
    assert items == init + [last];
    var f, fi := Fresh(items, seen), Fresh(init, seen);
    FreshElems(init, seen, f[i]);
    assert f[i] in init;
    FirstIndexPrefix(items, |init|, f[i]);
    if j < |fi| {
      FreshElems(init, seen, f[j]);
      FirstIndexPrefix(items, |init|, f[j]);
      FreshFirstSeenOrder(init, seen, i, j);
    } else {
      assert f[j] == last && last !in init;
      assert items[|init|] == last && last !in items[..|init|];
    }
  }

  /** `extract_option_values(option_prefix, all_parts, part_index)`: the value
      of the option token at `partIndex`, glued to the prefix (`-Ipath`) or
      given as the next token (`-I path`); `None` when there is none. */
  function ExtractOptionValues(optionPrefix: string, allParts: seq<string>, partIndex: nat): (r: Option<string>)
    ensures r.Some? ==> partIndex < |allParts| && StartsWith(allParts[partIndex], optionPrefix)
    ensures r.Some? && allParts[partIndex] != optionPrefix ==>
              r.value != [] && optionPrefix + r.value == allParts[partIndex]
    ensures r.Some? && allParts[partIndex] == optionPrefix ==>
              partIndex + 1 < |allParts| && r.value == allParts[partIndex + 1]
    ensures r.None? <==>
              partIndex >= |allParts| || !StartsWith(allParts[partIndex], optionPrefix)
              || (allParts[partIndex] == optionPrefix && partIndex + 1 == |allParts|)
  {
    if partIndex >= |allParts| then None
    else
      var part := allParts[partIndex];
      if StartsWith(part, optionPrefix) then
        if part != optionPrefix then
          assert part == optionPrefix + part[|optionPrefix|..];
          Some(part[|optionPrefix|..])
        else if partIndex + 1 < |allParts| then Some(allParts[partIndex + 1])
        else None
      else None
  }

  /** The glued form `-Ivalue` and the separated form `-I value` give the same
      value. */
  lemma {:induction false} GluedAndSeparatedAgree(optionPrefix: string, value: string, rest: seq<string>)
    requires value != []
    ensures ExtractOptionValues(optionPrefix, [optionPrefix + value] + rest, 0) == Some(value)
    ensures ExtractOptionValues(optionPrefix, [optionPrefix, value] + rest, 0) == Some(value)
  {
    var glued := optionPrefix + value;
    assert glued[..|optionPrefix|] == optionPrefix;
    assert glued[|optionPrefix|..] == value;
  }

  /** `value.replace('"', '\\"')`: every double quote gets a backslash before it. */
  function EscapeQuotes(value: string): (r: string)
    ensures ' ' in r <==> ' ' in value
    ensures '"' !in value ==> r == value
    ensures r == [] || r[0] != '"'
    ensures forall k :: 0 <= k < |r| && r[k] == '"' ==> 0 < k && r[k - 1] == '\\'
  {
    if value == [] then []
    else (if value[0] == '"' then "\\\"" else [value[0]]) + EscapeQuotes(value[1..])
  }

  /** Reads an escaped value back: `\"` becomes `"`. */
  function UnescapeQuotes(r: string): string
  {
    if r == [] then []
    else if |r| >= 2 && r[0] == '\\' && r[1] == '"' then "\"" + UnescapeQuotes(r[2..])
    else [r[0]] + UnescapeQuotes(r[1..])
  }

  /** Escaping loses nothing: it is undone by `UnescapeQuotes`. */
  lemma {:induction false} EscapeRoundTrip(value: string)
    ensures UnescapeQuotes(EscapeQuotes(value)) == value
  {
    if value != [] {
      var rest := EscapeQuotes(value[1..]);
      EscapeRoundTrip(value[1..]);
      if value[0] == '"' {
        assert EscapeQuotes(value) == "\\\"" + rest;
        assert EscapeQuotes(value)[2..] == rest;
      } else {
        assert EscapeQuotes(value) == [value[0]] + rest;
        assert EscapeQuotes(value)[1..] == rest;
        assert value[0] == '\\' ==> rest == [] || rest[0] != '"';
      }
    }
  }

  /** `format_for_cmake(value)`: quotes escaped, and the whole wrapped in double
      quotes when it contains a space. */
  function FormatForCmake(value: string): (r: string)
    ensures (r != [] && r[0] == '"') <==> ' ' in value
    ensures ' ' !in value && '"' !in value ==> r == value
    ensures ' ' in value ==>
              |r| >= 2 && r[|r| - 1] == '"' && r[1..|r| - 1] == EscapeQuotes(value)
    ensures ' ' !in value ==> r == EscapeQuotes(value)
  {
    var escaped := EscapeQuotes(value);
    if ' ' in escaped then "\"" + escaped + "\"" else escaped
  }

  /** Reads a formatted argument back: drops the wrapping quotes, if any, and
      unescapes. */
  function ParseFormatted(r: string): string
  {
    if r != [] && r[0] == '"' && |r| >= 2 then UnescapeQuotes(r[1..|r| - 1]) else UnescapeQuotes(r)
  }

  /** `format_for_cmake` is injective: the value can be read back from its
      formatted form. */
  lemma {:induction false} FormatRoundTrip(value: string)
    ensures ParseFormatted(FormatForCmake(value)) == value
  {
    var escaped := EscapeQuotes(value);
    EscapeRoundTrip(value);
    if ' ' in escaped {
      var r := "\"" + escaped + "\"";
      assert r[1..|r| - 1] == escaped;
    }
  }
}
