/** Compound-license normalisation (src/lib/generate-org-license-report.ts,
    `multipleLicenses`, `splitMultipleLicenses`, `separateMultiLicenses`). */
module LicenseSplit {
  import opened Types
  import opened Strings

  /** `multipleLicenses`: the id contains `OR` or `AND` anywhere, so an id
      such as `FORK` counts as compound too. */
  function IsCompound(id: string): (b: bool)
    ensures b <==> exists x, y :: id == x + "OR" + y || id == x + "AND" + y
  {
    ContainsIff(id, "OR");
    ContainsIff(id, "AND");
    Contains(id, "OR") || Contains(id, "AND")
  }

  /** An id holding neither split separator. */
  predicate Atomic(id: string) {
    !Contains(id, " OR ") && !Contains(id, " AND ")
  }

  /** `splitMultipleLicenses`: `id.split(/ OR | AND /)`. The scan goes left to
      right; at each position ` OR ` is tried, then ` AND `, and a match ends
      the current fragment. */
  function SplitIds(s: string): (ids: seq<string>)
    ensures |ids| >= 1
    ensures |ids| == 1 <==> Atomic(s)
    decreases |s|
  {
    if " OR " <= s then [""] + SplitIds(s[4..])
    else if " AND " <= s then [""] + SplitIds(s[5..])
    else if |s| == 0 then [""]
    else
      var rest := SplitIds(s[1..]);
      [[s[0]] + rest[0]] + rest[1..]
  }

  lemma {:induction false} SplitIdsHeadIsPrefix(s: string)
    ensures SplitIds(s)[0] <= s
    decreases |s|
  {
    if !(" OR " <= s) && !(" AND " <= s) && |s| > 0 {
      SplitIdsHeadIsPrefix(s[1..]);
      assert s == [s[0]] + s[1..];
    }
  }

  lemma PrefixTransitive(a: string, b: string, c: string)
    requires a <= b && b <= c
    ensures a <= c
  {
    assert c[..|a|] == b[..|a|];
  }

  /** No fragment produced by the split contains a separator. */
  lemma {:induction false} SplitIdsAtomic(s: string)
    ensures forall f :: f in SplitIds(s) ==> Atomic(f)
    decreases |s|
  {
    if " OR " <= s {
      SplitIdsAtomic(s[4..]);
    } else if " AND " <= s {
      SplitIdsAtomic(s[5..]);
    } else if |s| > 0 {
      SplitIdsAtomic(s[1..]);
      var rest := SplitIds(s[1..]);
      var head := [s[0]] + rest[0];
      assert rest[0] in rest;
      SplitIdsHeadIsPrefix(s[1..]);
      assert head <= s by {
        assert s == [s[0]] + s[1..];
      }
      assert head[1..] == rest[0];
      if " OR " <= head { PrefixTransitive(" OR ", head, s); }
      if " AND " <= head { PrefixTransitive(" AND ", head, s); }
      assert Atomic(head);
      assert forall f :: f in SplitIds(s) ==> f == head || f in rest[1..];
    }
  }

  /** An id without separators splits into itself alone. */
  lemma {:induction false} SplitIdsOfAtomic(s: string)
    requires Atomic(s)
    ensures SplitIds(s) == [s]
    decreases |s|
  {
    if |s| > 0 {
      assert Atomic(s[1..]);
      SplitIdsOfAtomic(s[1..]);
      assert s == [s[0]] + s[1..];
    }
  }

  /** The separators the split consumes, in order. */
  function Separators(s: string): (seps: seq<string>)
    ensures |seps| == |SplitIds(s)| - 1
    ensures forall k :: 0 <= k < |seps| ==> seps[k] == " OR " || seps[k] == " AND "
    decreases |s|
  {
    if " OR " <= s then [" OR "] + Separators(s[4..])
    else if " AND " <= s then [" AND "] + Separators(s[5..])
    else if |s| == 0 then []
    else Separators(s[1..])
  }

  /** The fragments with the separators between them. */
  function Interleave(ids: seq<string>, seps: seq<string>): string
    requires |ids| >= 1 && |seps| == |ids| - 1
    decreases |ids|
  {
    if |ids| == 1 then ids[0] else ids[0] + seps[0] + Interleave(ids[1..], seps[1..])
  }

  /** Text put in front of the first fragment ends up in front of the whole. */
  lemma InterleaveHead(x: string, ids: seq<string>, seps: seq<string>)
    requires |ids| >= 1 && |seps| == |ids| - 1
    ensures Interleave([x + ids[0]] + ids[1..], seps) == x + Interleave(ids, seps)
  {
    if |ids| > 1 {
      assert ([x + ids[0]] + ids[1..])[1..] == ids[1..];
    }
  }

  /** A separator at the front becomes an empty first fragment. */
  lemma InterleaveAfterSeparator(s: string, sep: string, ids: seq<string>, seps: seq<string>)
    requires |ids| >= 1 && |seps| == |ids| - 1
    requires sep <= s && Interleave(ids, seps) == s[|sep|..]
    ensures Interleave([""] + ids, [sep] + seps) == s
  {
    assert ([""] + ids)[1..] == ids;
    assert ([sep] + seps)[1..] == seps;
    assert s == sep + s[|sep|..];
  }

  /** The fragments and the consumed separators, interleaved, give the id back. */
  lemma {:induction false} InterleaveSeparators(s: string)
    ensures Interleave(SplitIds(s), Separators(s)) == s
    decreases |s|
  {
    if " OR " <= s {
      InterleaveSeparators(s[4..]);
      InterleaveAfterSeparator(s, " OR ", SplitIds(s[4..]), Separators(s[4..]));
    } else if " AND " <= s {
      InterleaveSeparators(s[5..]);
      InterleaveAfterSeparator(s, " AND ", SplitIds(s[5..]), Separators(s[5..]));
    } else if |s| > 0 {
      InterleaveSeparators(s[1..]);
      InterleaveHead([s[0]], SplitIds(s[1..]), Separators(s[1..]));
      assert s == [s[0]] + s[1..];
    }
  }

  /** `split` loses nothing but the separators: some list of ` OR ` and
      ` AND `, one fewer than the fragments, interleaves them back into the id. */
  lemma SplitIdsRoundTrip(s: string)
    ensures exists seps: seq<string> ::
      |seps| == |SplitIds(s)| - 1 &&
      (forall k :: 0 <= k < |seps| ==> seps[k] == " OR " || seps[k] == " AND ") &&
      Interleave(SplitIds(s), seps) == s
  {
    InterleaveSeparators(s);
  }

  /** An id without a space has no separator. */
  lemma NoSpaceAtomic(s: string)
    requires ' ' !in s
    ensures Atomic(s)
  {
    ContainsKeepsChar(s, " OR ", ' ');
    ContainsKeepsChar(s, " AND ", ' ');
  }

  /** An id holding a separator also holds the bare keyword, so it is compound. */
  lemma SeparatorMakesCompound(s: string)
    ensures Contains(s, " OR ") ==> Contains(s, "OR")
    ensures Contains(s, " AND ") ==> Contains(s, "AND")
  {
    assert " OR " == " " + "OR" + " ";
    assert " AND " == " " + "AND" + " ";
    ContainsInner(s, " ", "OR", " ");
    ContainsInner(s, " ", "AND", " ");
  }

  /** The records one license record becomes: a copy per fragment of a
      compound id, each equal to the record but for `id`; the record itself
      otherwise. */
  function Expand(license: LicenseRecord): (r: seq<LicenseRecord>)
    ensures |r| >= 1
    ensures forall x :: x in r ==> x == license.(id := x.id) && Atomic(x.id)
    ensures IsCompound(license.id) ==>
      |r| == |SplitIds(license.id)| &&
      forall k :: 0 <= k < |r| ==> r[k].id == SplitIds(license.id)[k]
    ensures !IsCompound(license.id) ==> r == [license]
  {
    if IsCompound(license.id) then
      var ids := SplitIds(license.id);
      SplitIdsAtomic(license.id);
      seq(|ids|, k requires 0 <= k < |ids| => license.(id := ids[k]))
    else
      SeparatorMakesCompound(license.id);
      [license]
  }

  /** The normalised list: each record's expansion, in record order. */
  function Normalize(licenses: seq<LicenseRecord>): seq<LicenseRecord>
  {
    if |licenses| == 0 then []
    else Normalize(licenses[..|licenses| - 1]) + Expand(licenses[|licenses| - 1])
  }

  /** Every normalised record has an atomic id and equals some input record
      except for `id`. */
  lemma {:induction false} NormalizeSpec(licenses: seq<LicenseRecord>)
    ensures |Normalize(licenses)| >= |licenses|
    ensures forall r :: r in Normalize(licenses) ==> Atomic(r.id)
    ensures forall r :: r in Normalize(licenses) ==>
      exists q :: q in licenses && r == q.(id := r.id)
  {
    if |licenses| > 0 {
      var init := licenses[..|licenses| - 1];
      var last := licenses[|licenses| - 1];
      NormalizeSpec(init);
      forall r | r in Normalize(licenses)
        ensures Atomic(r.id) && exists q :: q in licenses && r == q.(id := r.id)
      {
        if r in Normalize(init) {
          var q :| q in init && r == q.(id := r.id);
          assert q in licenses;
        } else {
          assert r in Expand(last);
          assert last in licenses;
        }
      }
    }
  }

  /** `separateMultiLicenses`: the loop that pushes each record, or its
      copies when compound, onto `processesLicenses`. */
  method SeparateMultiLicenses(licenses: seq<LicenseRecord>) returns (processed: seq<LicenseRecord>)
    ensures processed == Normalize(licenses)
    ensures forall r :: r in processed ==> Atomic(r.id)
  {
    processed := [];
    for i := 0 to |licenses|
      invariant processed == Normalize(licenses[..i])
    {
      assert licenses[..i + 1][..i] == licenses[..i];
      var license := licenses[i];
      if IsCompound(license.id) {
        var ids := SplitIds(license.id);
        ghost var before := processed;
        ghost var copies := Expand(license);
        for j := 0 to |ids|
          invariant processed == before + copies[..j]
        {
          assert copies[..j + 1] == copies[..j] + [license.(id := ids[j])];
          processed := processed + [license.(id := ids[j])];
        }
        assert copies[..|ids|] == copies;
      } else {
        processed := processed + [license];
      }
    }
    assert licenses[..|licenses|] == licenses;
    NormalizeSpec(licenses);
  }

  /** An id that merely contains `OR` is compound, yet splits into itself. */
  lemma ForkIsCompoundButUnsplit()
    ensures IsCompound("FORK")
    ensures SplitIds("FORK") == ["FORK"]
  {
    assert "FORK"[1..] == "ORK";
    assert "OR" <= "ORK";
    NoSpaceAtomic("FORK");
    SplitIdsOfAtomic("FORK");
  }

  /** A space-free id followed by ` OR ` becomes the first fragment. */
  lemma {:induction false} SplitAfterOr(a: string, b: string)
    requires ' ' !in a
    ensures SplitIds(a + " OR " + b) == [a] + SplitIds(b)
    decreases |a|
  {
    var s := a + " OR " + b;
    if |a| == 0 {
      assert s == " OR " + b;
      assert s[4..] == b;
    } else {
      SplitAfterOr(a[1..], b);
      assert s[0] == a[0] != ' ';
      assert !(" OR " <= s) && !(" AND " <= s);
      assert s[1..] == a[1..] + " OR " + b;
      var rest := SplitIds(s[1..]);
      assert rest == [a[1..]] + SplitIds(b);
      assert SplitIds(s) == [[s[0]] + rest[0]] + rest[1..];
      assert a == [a[0]] + a[1..];
    }
  }

  /** A space-free id followed by ` AND ` becomes the first fragment. */
  lemma {:induction false} SplitAfterAnd(a: string, b: string)
    requires ' ' !in a
    ensures SplitIds(a + " AND " + b) == [a] + SplitIds(b)
    decreases |a|
  {
    var s := a + " AND " + b;
    if |a| == 0 {
      assert s == " AND " + b;
      assert s[1] == 'A' && !(" OR " <= s);
      assert s[5..] == b;
    } else {
      SplitAfterAnd(a[1..], b);
      assert s[0] == a[0] != ' ';
      assert !(" OR " <= s) && !(" AND " <= s);
      assert s[1..] == a[1..] + " AND " + b;
      var rest := SplitIds(s[1..]);
      assert rest == [a[1..]] + SplitIds(b);
      assert SplitIds(s) == [[s[0]] + rest[0]] + rest[1..];
      assert a == [a[0]] + a[1..];
    }
  }

  /** A two-license choice splits into its two ids. */
  lemma SplitChoice(a: string, b: string)
    requires a == "MIT" && b == "Apache-2.0"
    ensures SplitIds(a + " OR " + b) == [a, b]
  {
    NoSpaceAtomic(b);
    SplitIdsOfAtomic(b);
    SplitAfterOr(a, b);
  }
}
