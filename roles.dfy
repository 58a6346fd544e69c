/** The Role record of the schema and the list de-duplication the role
    handlers apply to `accessModules` before the schema trims each entry. */
module Roles {
  import opened Text
  import opened Values

  /** A stored role. `createdAt` is a reading of an abstract clock. */
  datatype Role = Role(name: string, accessModules: seq<string>, createdAt: int, active: bool)

  /** What the schema guarantees of every stored role: the name is present
      (a required string may not be empty) and trimmed, and every access
      module is trimmed. */
  predicate RoleValid(r: Role) {
    r.name != "" && Trimmed(r.name) &&
    forall i :: 0 <= i < |r.accessModules| ==> Trimmed(r.accessModules[i])
  }

  predicate NoDuplicates(s: seq<string>) {
    forall i, j :: 0 <= i < j < |s| ==> s[i] != s[j]
  }

  /** `[...new Set(xs)]` read left to right: keep an element unless it is
      already among those kept (`seen`). */
  function DedupFrom(xs: seq<string>, seen: set<string>): seq<string> {
    if xs == [] then []
    else if xs[0] in seen then DedupFrom(xs[1..], seen)
    else [xs[0]] + DedupFrom(xs[1..], seen + {xs[0]})
  }

  function Dedup(xs: seq<string>): seq<string> {
    DedupFrom(xs, {})
  }

  /** Reference definition: the entries of `xs` that are not repeats of an
      earlier entry, in the order of `xs` (the insertion order of a Set). */
  function FirstOccurrences(xs: seq<string>): seq<string> {
    if xs == [] then []
    else
      var init, x := xs[..|xs| - 1], xs[|xs| - 1];
      FirstOccurrences(init) + (if x in init then [] else [x])
  }

  /** The schema's `trim: true` on every list entry. */
  function TrimAll(xs: seq<string>): seq<string> {
    seq(|xs|, i requires 0 <= i < |xs| => Trim(xs[i]))
  }

  /** The `accessModules` a role handler writes: the request's array with
      repeats removed, then trimmed entry by entry by the schema; anything
      that is not an array (a missing list) becomes the empty list. */
  function StoredModules(modules: Value): seq<string> {
    if modules.Arr? then TrimAll(Dedup(modules.items)) else []
  }

  /** De-duplication keeps no repeats and keeps exactly the elements of the
      input not already in `seen`. */
  lemma {:induction false} DedupFromSpec(xs: seq<string>, seen: set<string>)
    ensures NoDuplicates(DedupFrom(xs, seen))
    ensures forall x :: x in DedupFrom(xs, seen) <==> x in xs && x !in seen
  {
    if xs != [] {
      DedupFromSpec(xs[1..], seen);
      DedupFromSpec(xs[1..], seen + {xs[0]});
      assert xs == [xs[0]] + xs[1..];
    }
  }

  /** Appending one element to the input appends it to the output exactly
      when it has not been seen before. */
  lemma {:induction false} DedupFromSnoc(xs: seq<string>, x: string, seen: set<string>)
    ensures DedupFrom(xs + [x], seen) ==
            DedupFrom(xs, seen) + (if x in seen || x in xs then [] else [x])
  {
    if xs == [] {
      assert [x][1..] == [];
    } else {
      assert (xs + [x])[1..] == xs[1..] + [x];
      if xs[0] in seen {
        DedupFromSnoc(xs[1..], x, seen);
      } else {
        DedupFromSnoc(xs[1..], x, seen + {xs[0]});
      }
      assert x in xs <==> x == xs[0] || x in xs[1..] by {
        assert xs == [xs[0]] + xs[1..];
      }
    }
  }

  /** `Dedup` keeps first occurrences in their original order. */
  lemma {:induction false} DedupIsFirstOccurrences(xs: seq<string>)
    ensures Dedup(xs) == FirstOccurrences(xs)
  {
    if xs != [] {
      var init, x := xs[..|xs| - 1], xs[|xs| - 1];
      assert xs == init + [x];
      DedupIsFirstOccurrences(init);
      DedupFromSnoc(init, x, {});
    }
  }

  /** The de-duplicated list has no repeats, holds the same elements as the
      input, and leaves a list without repeats as it is. */
  lemma DedupSpec(xs: seq<string>)
    ensures NoDuplicates(Dedup(xs))
    ensures forall x :: x in Dedup(xs) <==> x in xs
    ensures NoDuplicates(xs) ==> Dedup(xs) == xs
  {
    DedupFromSpec(xs, {});
    if NoDuplicates(xs) {
      DedupOfDistinct(xs, {});
    }
  }

  lemma {:induction false} DedupOfDistinct(xs: seq<string>, seen: set<string>)
    requires NoDuplicates(xs)
    requires forall x :: x in xs ==> x !in seen
    ensures DedupFrom(xs, seen) == xs
  {
    if xs != [] {
      assert xs[0] !in xs[1..];
      forall x | x in xs[1..] ensures x !in seen + {xs[0]} {
        assert x in xs;
      }
      DedupOfDistinct(xs[1..], seen + {xs[0]});
    }
  }

  /** A role built from a name that does not trim to nothing, with modules
      stored the way the handlers store them, is valid for the schema. */
  lemma StoredRoleValid(name: string, modules: Value, createdAt: int, active: bool)
    requires Trim(name) != ""
    ensures RoleValid(Role(Trim(name), StoredModules(modules), createdAt, active))
  {
    TrimSlice(name);
    var ms := StoredModules(modules);
    forall i | 0 <= i < |ms| ensures Trimmed(ms[i]) {
      TrimSlice(Dedup(modules.items)[i]);
    }
  }

  /** Trimming entries that carry no surrounding white space changes nothing. */
  lemma TrimAllOfTrimmed(xs: seq<string>)
    requires forall x :: x in xs ==> Trimmed(x)
    ensures TrimAll(xs) == xs
  {
    forall i | 0 <= i < |xs| ensures Trim(xs[i]) == xs[i] {
      TrimOfTrimmed(xs[i]);
    }
  }

  /** What a role handler stores for `accessModules`: nothing for a missing
      list; for a list whose entries carry no surrounding white space, its
      first occurrences in order, without repeats and with the same
      elements. */
  lemma StoredModulesSpec(modules: Value)
    ensures !modules.Arr? ==> StoredModules(modules) == []
    ensures modules.Arr? && (forall x :: x in modules.items ==> Trimmed(x)) ==>
              && StoredModules(modules) == FirstOccurrences(modules.items)
              && NoDuplicates(StoredModules(modules))
              && (forall x :: x in StoredModules(modules) <==> x in modules.items)
  {
    if modules.Arr? && (forall x :: x in modules.items ==> Trimmed(x)) {
      var items := modules.items;
      DedupSpec(items);
      DedupIsFirstOccurrences(items);
      TrimAllOfTrimmed(Dedup(items));
    }
  }

  /** One white-space character in front of a trimmed string is all that
      trimming removes. */
  lemma TrimPadded(m: string, c: char)
    requires Trimmed(m) && IsSpace(c)
    ensures Trim([c] + m) == m
  {
    TrimOfTrimmed(m);
    var padded := [c] + m;
    assert padded[0] == c && padded[1..] == m;
    assert TrimStart(padded) == TrimStart(m) == m;
    assert Trim(padded) == TrimEnd(m);
  }

  /** Two different entries are both kept by de-duplication. */
  lemma DedupPair(x: string, y: string)
    requires x != y
    ensures Dedup([x, y]) == [x, y]
  {
    DedupSpec([x, y]);
  }

  /** Trimming a two-entry list trims each entry. */
  lemma TrimAllPair(x: string, y: string)
    ensures TrimAll([x, y]) == [Trim(x), Trim(y)]
  {
    PairIs(TrimAll([x, y]), Trim(x), Trim(y));
  }

  /** A two-element sequence is the display of its two elements. */
  lemma PairIs<T>(s: seq<T>, x: T, y: T)
    requires |s| == 2 && s[0] == x && s[1] == y
    ensures s == [x, y]
  {
  }

  /** De-duplication runs before trimming, so a module name and the same
      name behind a white-space character are both kept, and both stored as
      the same trimmed string. */
  lemma WhitespaceVariantsBothStored(m: string, c: char)
    requires Trimmed(m) && IsSpace(c)
    ensures StoredModules(Arr([m, [c] + m])) == [m, m]
    ensures !NoDuplicates(StoredModules(Arr([m, [c] + m])))
  {
    var padded := [c] + m;
    assert m != padded by { assert |m| != |padded|; }
    DedupPair(m, padded);
    TrimAllPair(m, padded);
    TrimOfTrimmed(m);
    TrimPadded(m, c);
    var stored := StoredModules(Arr([m, padded]));
    assert stored == [m, m];
    assert stored[0] == stored[1];
  }
}
