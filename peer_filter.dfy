/** `filter_urls` and `filter_urls_and_clean`: a prefix's peer list minus the local address. */
module PeerFilter {
  import opened Common
  import opened Ascii

  /** `src` with every entry equal to `avoid` (ignoring ASCII case) dropped. */
  function Without(src: seq<string>, avoid: string): seq<string>
    decreases |src|
  {
    if src == [] then []
    else
      var last := src[|src| - 1];
      Without(src[..|src| - 1], avoid) + (if EqualsIgnoreCase(avoid, last) then [] else [last])
  }

  /** How many entries of `src` are `avoid`, ignoring ASCII case. */
  function CountMatches(src: seq<string>, avoid: string): nat
    decreases |src|
  {
    if src == [] then 0
    else CountMatches(src[..|src| - 1], avoid) + (if EqualsIgnoreCase(avoid, src[|src| - 1]) then 1 else 0)
  }

  /** The value `filter_urls` returns: `None` (NULL) when `avoid` was never seen. */
  function Filtered(src: seq<string>, avoid: string): Option<seq<string>>
  {
    if Mentions(src, avoid) then Some(Without(src, avoid)) else None
  }

  /** `filter_urls`: one pass that copies every non-matching entry and raises
      `matched` on a match; NULL unless something matched. */
  method FilterUrls(src: seq<string>, avoid: string) returns (r: Option<seq<string>>)
    ensures r.None? <==> forall i :: 0 <= i < |src| ==> !EqualsIgnoreCase(avoid, src[i])
    ensures r.Some? ==> r.value == Without(src, avoid)
    ensures r == Filtered(src, avoid)
  {
    var matched := false;
    var tmp: seq<string> := [];
    var i := 0;
    while i < |src|
      invariant 0 <= i <= |src|
      invariant tmp == Without(src[..i], avoid)
      invariant matched <==> Mentions(src[..i], avoid)
    {
      assert src[..i + 1][..i] == src[..i];
      if EqualsIgnoreCase(avoid, src[i]) {
        matched := true;
      } else {
        tmp := tmp + [src[i]];
      }
      i := i + 1;
    }
    assert src[..i] == src;
    if matched {
      r := Some(tmp);
    } else {
      r := None;
    }
  }

  /** `filter_urls_and_clean`: NULL in, NULL out; otherwise exactly `filter_urls`. */
  method FilterUrlsAndClean(src: Option<seq<string>>, avoid: string) returns (r: Option<seq<string>>)
    ensures src.None? ==> r.None?
    ensures src.Some? ==> r == Filtered(src.value, avoid)
  {
    if src.None? {
      return None;
    }
    r := FilterUrls(src.value, avoid);
  }

  /** Dropping distributes over concatenation, so the kept entries stay in their original order. */
  lemma {:induction false} WithoutConcat(s: seq<string>, t: seq<string>, avoid: string)
    ensures Without(s + t, avoid) == Without(s, avoid) + Without(t, avoid)
    decreases |t|
  {
    if t == [] {
      assert s + t == s;
    } else {
      var t' := t[..|t| - 1];
      assert (s + t)[..|s + t| - 1] == s + t';
      assert (s + t)[|s + t| - 1] == t[|t| - 1];
      WithoutConcat(s, t', avoid);
    }
  }

  /** An entry is kept exactly when it is in the input and is not `avoid`: every match
      is dropped, duplicates included, and nothing else is. */
  lemma {:induction false} WithoutMembers(src: seq<string>, avoid: string, x: string)
    ensures x in Without(src, avoid) <==> x in src && !EqualsIgnoreCase(avoid, x)
    decreases |src|
  {
    if src != [] {
      var init := src[..|src| - 1];
      WithoutMembers(init, avoid, x);
      assert src == init + [src[|src| - 1]];
    }
  }

  /** The output is shorter than the input by exactly the number of matching entries. */
  lemma {:induction false} WithoutLength(src: seq<string>, avoid: string)
    ensures |Without(src, avoid)| + CountMatches(src, avoid) == |src|
    decreases |src|
  {
    if src != [] {
      WithoutLength(src[..|src| - 1], avoid);
    }
  }

  /** Nothing is dropped from a list that does not mention `avoid`. */
  lemma {:induction false} WithoutUnmentioned(src: seq<string>, avoid: string)
    requires !Mentions(src, avoid)
    ensures Without(src, avoid) == src
    decreases |src|
  {
    if src != [] {
      var init := src[..|src| - 1];
      assert !Mentions(init, avoid) by {
        forall i | 0 <= i < |init| ensures !EqualsIgnoreCase(avoid, init[i]) {
          assert init[i] == src[i];
        }
      }
      WithoutUnmentioned(init, avoid);
      assert src == init + [src[|src| - 1]];
    }
  }

  /** `filter_urls` returns the empty (non-NULL) list exactly when the list is
      non-empty and every entry is the local address. */
  lemma FilteredEmptyIff(src: seq<string>, avoid: string)
    ensures Filtered(src, avoid) == Some([]) <==>
      |src| > 0 && forall i :: 0 <= i < |src| ==> EqualsIgnoreCase(avoid, src[i])
  {
    WithoutLength(src, avoid);
    CountMatchesAll(src, avoid);
    if |src| > 0 && forall i :: 0 <= i < |src| ==> EqualsIgnoreCase(avoid, src[i]) {
      assert EqualsIgnoreCase(avoid, src[0]);
    }
  }

  /** All entries match exactly when the count of matches is the length. */
  lemma {:induction false} CountMatchesAll(src: seq<string>, avoid: string)
    ensures CountMatches(src, avoid) <= |src|
    ensures CountMatches(src, avoid) == |src| <==> forall i :: 0 <= i < |src| ==> EqualsIgnoreCase(avoid, src[i])
    decreases |src|
  {
    if src != [] {
      var init := src[..|src| - 1];
      CountMatchesAll(init, avoid);
      assert forall i :: 0 <= i < |init| ==> init[i] == src[i];
    }
  }

  /** The local address listed twice, once in another case, is dropped both times. */
  lemma DuplicateSelfDropped()
    ensures Filtered(["10.0.0.1:6000", "10.0.0.2:6000", "HOST:6000", "host:6000"], "Host:6000")
      == Some(["10.0.0.1:6000", "10.0.0.2:6000"])
  {
    var src := ["10.0.0.1:6000", "10.0.0.2:6000", "HOST:6000", "host:6000"];
    var avoid := "Host:6000";
    assert EqualsIgnoreCase(avoid, src[2]);
    assert EqualsIgnoreCase(avoid, src[3]);
    assert !EqualsIgnoreCase(avoid, src[0]) by { assert ToLower(avoid)[0] != ToLower(src[0])[0]; }
    assert !EqualsIgnoreCase(avoid, src[1]) by { assert ToLower(avoid)[0] != ToLower(src[1])[0]; }
    assert Mentions(src, avoid);
    assert src[..1][..0] == [];
    assert Without(src[..1], avoid) == [src[0]];
    assert src[..2][..1] == src[..1];
    assert Without(src[..2], avoid) == [src[0], src[1]];
    assert src[..3][..2] == src[..2];
    assert Without(src[..3], avoid) == [src[0], src[1]];
    assert src[..3] == src[..|src| - 1];
  }
}
