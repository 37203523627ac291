/**
 * Trip-id normalisation and variant generation (TripIdUtils): the permissive matching
 * keys that bridge the spelling differences between the static schedule and the
 * realtime feed.
 */
module TripIds {
  import opened Wrappers
  import opened Text

  predicate IsSeparator(c: char) { c == '-' || c == '_' || c == '.' }

  /** The characters kept by the `[^A-Za-z0-9_\-\.]` filter. */
  predicate IsKeyChar(c: char) { IsLetter(c) || IsDigit(c) || IsSeparator(c) }

  predicate IsLowerKeyChar(c: char) { IsLower(c) || IsDigit(c) || IsSeparator(c) }

  predicate IsSkeletonChar(c: char) { !IsSeparator(c) }

  predicate IsNotDot(c: char) { c != '.' }

  /** The shape of every normalised key: non-empty, lower-case key characters, no leading separator. */
  predicate IsTripKey(s: string)
  {
    s != [] && !IsSeparator(s[0]) && forall i :: 0 <= i < |s| ==> IsLowerKeyChar(s[i])
  }

  /** A run of digits closed by '#', such as "0#" or "12#". */
  predicate IsFeedPrefix(p: string)
  {
    |p| >= 2 && AllDigits(p[..|p| - 1]) && p[|p| - 1] == '#'
  }

  function LeadingDigits(s: string): (k: nat)
    ensures k <= |s|
    ensures AllDigits(s[..k])
    ensures k < |s| ==> !IsDigit(s[k])
  {
    if s != [] && IsDigit(s[0]) then
      var k := 1 + LeadingDigits(s[1..]);
      assert s[..k] == [s[0]] + s[1..][..k - 1];
      k
    else 0
  }

  /** `replaceFirst("^\\d+#", "")`: drops a leading feed prefix and nothing else. */
  function StripFeedPrefix(s: string): (r: string)
    ensures |r| <= |s| && r == s[|s| - |r|..]
    ensures r != s ==> IsFeedPrefix(s[..|s| - |r|])
    ensures forall k :: 0 < k < |s| && s[k] == '#' && AllDigits(s[..k]) ==> r == s[k + 1..]
  {
    var k := LeadingDigits(s);
    if 0 < k < |s| && s[k] == '#' then
      assert s[..k + 1][..k] == s[..k];
      s[k + 1..]
    else
      s
  }

  /**
   * The namespace step: a case-insensitive "agency:" or "trip:" prefix, or else any
   * prefix of one to five characters before the first ':', is dropped.
   */
  function StripNamespace(s: string): (r: string)
    ensures |r| <= |s| && r == s[|s| - |r|..]
    ensures r != s ==> |s| - |r| <= 7 && s[|s| - |r| - 1] == ':'
  {
    var lower := ToLower(s);
    if StartsWith(lower, "agency:") then
      assert LowerChar(s[6]) == lower[6] == ':';
      s[7..]
    else if StartsWith(lower, "trip:") then
      assert LowerChar(s[4]) == lower[4] == ':';
      s[5..]
    else
      var colon := IndexOf(s, ':');
      if 0 < colon < 6 then s[colon + 1..] else s
  }

  function TrailingZeros(s: string): (z: nat)
    ensures z <= |s|
    ensures forall i :: |s| - z <= i < |s| ==> s[i] == '0'
    ensures z < |s| ==> s[|s| - z - 1] != '0'
  {
    if s != [] && s[|s| - 1] == '0' then 1 + TrailingZeros(s[..|s| - 1]) else 0
  }

  /** `replaceAll("([\\-_.])0+$", "")`: one separator followed by the trailing zeros is dropped. */
  function DropZeroPadding(s: string): (r: string)
    ensures |r| <= |s| && r == s[..|r|]
    ensures r != s ==> IsSeparator(s[|r|]) && forall i :: |r| < i < |s| ==> s[i] == '0'
    ensures r != s ==> |s| - |r| >= 2
  {
    var z := TrailingZeros(s);
    if 0 < z < |s| && IsSeparator(s[|s| - z - 1]) then s[..|s| - z - 1] else s
  }

  /**
   * TripIdUtils.normalizeSimple: trims, drops the feed and namespace prefixes, then
   * cleans what is left into a key; None for a missing or blank id, or when nothing is left.
   */
  function NormalizeSimple(raw: Option<string>): (r: Option<string>)
    ensures raw.None? ==> r.None?
    ensures raw.Some? && Trim(raw.value) == [] ==> r.None?
    ensures r.Some? ==> IsTripKey(r.value)
  {
    if raw.None? then None
    else
      var s := Trim(raw.value);
      if s == [] then None else CleanKey(StripNamespace(StripFeedPrefix(s)))
  }

  /** A letter or a digit: the characters that survive every cleaning step. */
  predicate IsAlnum(c: char) { IsLetter(c) || IsDigit(c) }

  /**
   * The second half of normalizeSimple: trims again, keeps only key characters, drops
   * separators at both ends and one trailing zero-padding group, and lower-cases; a key
   * is left exactly when the id holds a letter or a digit.
   */
  function CleanKey(s: string): (r: Option<string>)
    ensures r.Some? ==> IsTripKey(r.value)
    ensures r.Some? <==> exists i :: 0 <= i < |s| && IsAlnum(s[i])
  {
    var key := ToLower(DropZeroPadding(DropEdgeSeparators(Filter(Trim(s), IsKeyChar))));
    CleanKeyEmpty(s);
    if key == [] then None
    else
      KeyShape(Filter(Trim(s), IsKeyChar), key);
      Some(key)
  }

  /** Cleaning leaves nothing exactly when the id has no letter and no digit. */
  lemma CleanKeyEmpty(s: string)
    ensures ToLower(DropZeroPadding(DropEdgeSeparators(Filter(Trim(s), IsKeyChar)))) != [] <==>
            exists i :: 0 <= i < |s| && IsAlnum(s[i])
  {
    if exists i :: 0 <= i < |s| && IsAlnum(s[i]) {
      var i :| 0 <= i < |s| && IsAlnum(s[i]);
      AlnumKept(s, i);
    } else {
      NoAlnumDropped(s);
    }
  }

  lemma AlnumKept(s: string, i: int)
    requires 0 <= i < |s| && IsAlnum(s[i])
    ensures DropZeroPadding(DropEdgeSeparators(Filter(Trim(s), IsKeyChar))) != []
  {
    var f := Filter(Trim(s), IsKeyChar);
    var e := DropEdgeSeparators(f);
    TrimKeeps(s, i);
    assert s[i] in f;
    EdgesKeep(f, s[i]);
    KeptPadding(e);
  }

  /** Removing zero padding leaves a string that does not start with a separator non-empty. */
  lemma KeptPadding(e: string)
    requires e != [] && !IsSeparator(e[0])
    ensures DropZeroPadding(e) != []
  {
    var z := DropZeroPadding(e);
    if z != e {
      assert IsSeparator(e[|z|]);
    }
  }

  lemma NoAlnumDropped(s: string)
    requires forall i :: 0 <= i < |s| ==> !IsAlnum(s[i])
    ensures DropEdgeSeparators(Filter(Trim(s), IsKeyChar)) == []
  {
    var f := Filter(Trim(s), IsKeyChar);
    var e := DropEdgeSeparators(f);
    if e != [] {
      EdgeIsFromFilter(f);
      TrimKeepsOut(s, e[0]);
      assert false;
    }
  }

  /** The first character left after edge stripping is a character of the input that is no separator. */
  lemma EdgeIsFromFilter(f: string)
    ensures DropEdgeSeparators(f) != [] ==> DropEdgeSeparators(f)[0] in f && !IsSeparator(DropEdgeSeparators(f)[0])
  {
    var s5 := DropPrefixWhile(f, IsSeparator);
    var e := DropSuffixWhile(s5, IsSeparator);
    if e != [] {
      assert e[0] == s5[0];
      assert s5 == f[|f| - |s5|..];
      assert s5[0] == f[|f| - |s5|];
    }
  }

  /** Edge stripping keeps some character when one is not a separator. */
  lemma EdgesKeep(f: string, c: char)
    requires c in f && !IsSeparator(c)
    ensures DropEdgeSeparators(f) != [] && !IsSeparator(DropEdgeSeparators(f)[0])
  {
    var s5 := DropPrefixWhile(f, IsSeparator);
    var e := DropSuffixWhile(s5, IsSeparator);
    var j :| 0 <= j < |f| && f[j] == c;
    var off := |f| - |s5|;
    assert j >= off;
    assert s5[j - off] == c by {
      assert s5 == f[off..];
    }
    assert s5 != [] && !IsSeparator(s5[0]);
    assert !IsSeparator(s5[j - off]);
    assert e != [];
    assert e[0] == s5[0];
  }

  /** `replaceAll("^[\\-_.]+", "")` and `replaceAll("[\\-_.]+$", "")`. */
  function DropEdgeSeparators(s: string): (r: string)
  {
    DropSuffixWhile(DropPrefixWhile(s, IsSeparator), IsSeparator)
  }

  /** The last cleaning steps produce a trip key from any filtered string. */
  lemma KeyShape(s4: string, key: string)
    requires forall c :: c in s4 ==> IsKeyChar(c)
    requires key == ToLower(DropZeroPadding(DropEdgeSeparators(s4)))
    requires key != []
    ensures IsTripKey(key)
  {
    var s5 := DropPrefixWhile(s4, IsSeparator);
    var s6 := DropSuffixWhile(s5, IsSeparator);
    var s7 := DropZeroPadding(s6);
    assert s5[0] == s7[0];
    forall i | 0 <= i < |key|
      ensures IsLowerKeyChar(key[i])
    {
      assert s7[i] == s6[i] == s5[i] == s4[|s4| - |s5| + i];
      assert s4[|s4| - |s5| + i] in s4;
    }
  }

  /** Cleaning an id that is already a key without edge separators only drops its zero padding. */
  lemma CleanPlainKey(s: string)
    requires IsPlainKey(s)
    ensures CleanKey(s) == Some(DropZeroPadding(s))
  {
    PlainKeyFilter(s);
    PlainKeyEdges(s);
    PlainKeyLower(s);
  }

  lemma PlainKeyFilter(s: string)
    requires s != [] && !IsSeparator(s[0]) && !IsSeparator(s[|s| - 1])
    requires forall i :: 0 <= i < |s| ==> IsLowerKeyChar(s[i])
    ensures Trim(s) == s
    ensures Filter(Trim(s), IsKeyChar) == s
  {
    assert Trim(s) == s by { TrimUnchanged(s); }
    assert Filter(s, IsKeyChar) == s by { FilterKeepsAll(s, IsKeyChar); }
  }

  lemma PlainKeyEdges(s: string)
    requires s != [] && !IsSeparator(s[0]) && !IsSeparator(s[|s| - 1])
    ensures DropEdgeSeparators(s) == s
  {
    assert DropPrefixWhile(s, IsSeparator) == s;
  }

  lemma PlainKeyLower(s: string)
    requires IsPlainKey(s)
    ensures ToLower(DropZeroPadding(s)) == DropZeroPadding(s) != []
  {
    ToLowerUnchanged(DropZeroPadding(s));
  }

  /** Without a '#' there is no feed prefix to drop. */
  lemma NoFeedPrefix(s: string)
    requires '#' !in s
    ensures StripFeedPrefix(s) == s
  {
  }

  /** Without a ':' there is no namespace to drop. */
  lemma NoNamespace(s: string)
    requires ':' !in s
    ensures StripNamespace(s) == s
  {
    var lower := ToLower(s);
    if StartsWith(lower, "agency:") {
      assert LowerChar(s[6]) == ':';
    }
  }

  /** An id that is already a key with no separator at either end. */
  predicate IsPlainKey(s: string)
  {
    s != [] && !IsSeparator(s[0]) && !IsSeparator(s[|s| - 1]) &&
    forall i :: 0 <= i < |s| ==> IsLowerKeyChar(s[i])
  }

  /** Once the prefixes are gone and a plain key is left, normalisation only drops its padding. */
  lemma NormalizeVia(raw: string, key: string)
    requires raw != [] && !IsBlank(raw[0]) && !IsBlank(raw[|raw| - 1])
    requires StripNamespace(StripFeedPrefix(raw)) == key
    requires IsPlainKey(key)
    ensures NormalizeSimple(Some(raw)) == Some(DropZeroPadding(key))
  {
    TrimUnchanged(raw);
    CleanPlainKey(key);
  }

  /** A plain key normalises to itself once its zero padding is gone. */
  lemma NormalizePlainKey(key: string)
    requires IsPlainKey(key)
    ensures NormalizeSimple(Some(key)) == Some(DropZeroPadding(key))
  {
    assert '#' !in key && ':' !in key;
    NoFeedPrefix(key);
    NoNamespace(key);
    NormalizeVia(key, key);
  }

  /** Normalisation depends only on what the two prefix steps leave of the trimmed id. */
  lemma SamePrefixSteps(a: string, b: string)
    requires Trim(a) != [] && Trim(b) != []
    requires StripNamespace(StripFeedPrefix(Trim(a))) == StripNamespace(StripFeedPrefix(Trim(b)))
    ensures NormalizeSimple(Some(a)) == NormalizeSimple(Some(b))
  {
  }

  /** A leading feed prefix such as "0#" does not change the key. */
  lemma FeedPrefixIgnored(digits: string, id: string)
    requires digits != [] && AllDigits(digits)
    requires id != [] && !IsBlank(id[0]) && !IsBlank(id[|id| - 1]) && '#' !in id
    ensures NormalizeSimple(Some(digits + "#" + id)) == NormalizeSimple(Some(id))
  {
    var s := digits + "#" + id;
    TrimUnchanged(s);
    TrimUnchanged(id);
    FeedPrefixStripped(digits, id);
    NoFeedPrefix(id);
    SamePrefixSteps(s, id);
  }

  lemma FeedPrefixStripped(digits: string, id: string)
    requires digits != [] && AllDigits(digits)
    ensures StripFeedPrefix(digits + "#" + id) == id
  {
    var s := digits + "#" + id;
    assert s[..|digits|] == digits && s[|digits|] == '#' && s[|digits| + 1..] == id;
  }

  /** Lower-casing works character by character, so it distributes over concatenation. */
  lemma LowerKeepsPrefix(p: string, id: string)
    ensures ToLower(p + id) == ToLower(p) + ToLower(id)
    ensures StartsWith(ToLower(p + id), ToLower(p))
  {
    var lower := ToLower(p + id);
    forall i | 0 <= i < |lower|
      ensures lower[i] == (ToLower(p) + ToLower(id))[i]
    {
      if i < |p| {
        assert (p + id)[i] == p[i];
      } else {
        assert (p + id)[i] == id[i - |p|];
      }
    }
  }

  /** The namespace step drops "agency:" in any letter case in front of an id. */
  lemma StripAgency(p: string, id: string)
    requires ToLower(p) == "agency:"
    ensures StripNamespace(p + id) == id
  {
    LowerKeepsPrefix(p, id);
    assert (p + id)[7..] == id;
  }

  /** The namespace step drops "trip:" in any letter case in front of an id. */
  lemma StripTrip(p: string, id: string)
    requires ToLower(p) == "trip:"
    ensures StripNamespace(p + id) == id
  {
    var t := p + id;
    LowerKeepsPrefix(p, id);
    assert ToLower(t)[0] == 't';
    assert t[5..] == id;
  }

  /** Otherwise a prefix of one to five characters before the first ':' is dropped with it. */
  lemma StripShortPrefix(p: string, id: string)
    requires 1 <= |p| <= 5 && ':' !in p
    ensures StripNamespace(p + ":" + id) == id
  {
    var s := p + ":" + id;
    var lower := ToLower(s);
    assert s[..|p|] == p && s[|p|] == ':' && s[|p| + 1..] == id;
    assert lower[|p|] == ':';
    assert |p| == 5 ==> LowerChar(s[4]) != ':' by {
      if |p| == 5 {
        assert s[4] == p[4];
      }
    }
    if StartsWith(lower, "agency:") {
      assert false;
    } else if StartsWith(lower, "trip:") {
      if |p| == 5 {
        assert false;
      }
      assert "trip:"[|p|] == ':';
    } else {
      assert IndexOf(s, ':') == |p|;
    }
  }

  /** A case-insensitive "agency:" or "trip:" namespace does not change the key. */
  lemma NamespaceIgnored(p: string, id: string)
    requires ToLower(p) == "agency:" || ToLower(p) == "trip:"
    requires id != [] && !IsBlank(id[0]) && !IsBlank(id[|id| - 1]) && '#' !in id && ':' !in id
    ensures NormalizeSimple(Some(p + id)) == NormalizeSimple(Some(id))
  {
    TrimUnchanged(id);
    NoFeedPrefix(id);
    NoNamespace(id);
    var a := p + id;
    assert LowerChar(a[0]) == ToLower(p)[0];
    TrimUnchanged(a);
    assert StripFeedPrefix(a) == a by { assert !IsDigit(a[0]); }
    if ToLower(p) == "agency:" {
      StripAgency(p, id);
    } else {
      StripTrip(p, id);
    }
    SamePrefixSteps(a, id);
  }

  /** Appending one zero-padding group to a plain key is undone by DropZeroPadding. */
  lemma ZeroGroupDropped(key: string)
    requires IsPlainKey(key)
    ensures DropZeroPadding(key + "-0") == key
  {
    var t := key + "-0";
    assert t[..|t| - 1] == key + "-";
    assert TrailingZeros(t[..|t| - 1]) == 0;
    assert t[..|t| - 2] == key;
  }

  /**
   * Only the last zero-padding group is dropped, so normalising a normalised key can
   * shorten it again: "a-0-0" becomes "a-0", which becomes "a".
   */
  lemma {:induction false} NotIdempotent(key: string)
    requires IsPlainKey(key)
    ensures NormalizeSimple(Some(key + "-0-0")) == Some(key + "-0")
    ensures NormalizeSimple(Some(key + "-0")) == Some(key)
  {
    var s, t := key + "-0-0", key + "-0";
    assert s == t + "-0";
    assert IsPlainKey(t) && IsPlainKey(s);
    ZeroGroupDropped(t);
    ZeroGroupDropped(key);
    NormalizePlainKey(s);
    NormalizePlainKey(t);
  }

  /** The separator-free form of a key. */
  function RemoveSeparators(s: string): (r: string)
    ensures forall c :: c in r ==> !IsSeparator(c)
  {
    Filter(s, IsSkeletonChar)
  }

  /** The re-spellings of a normalised key tried by generateVariants. */
  function KeyVariants(norm: string): (r: set<string>)
    requires IsTripKey(norm)
    ensures norm in r
    ensures RemoveSeparators(norm) in r
    ensures '-' in norm ==> ReplaceChar(norm, '-', '_') in r
    ensures '_' in norm ==> ReplaceChar(norm, '_', '-') in r
    ensures '.' in norm ==> {ReplaceChar(norm, '.', '-'), ReplaceChar(norm, '.', '_'), Filter(norm, IsNotDot)} <= r
    ensures forall v :: v in r ==> IsTripKey(v)
  {
    VariantShapes(norm);
    SkeletonNotEmpty(norm);
    var noSep := RemoveSeparators(norm);
    var dashes: set<string> := if '-' in norm then {ReplaceChar(norm, '-', '_')} else {};
    var underscores: set<string> := if '_' in norm then {ReplaceChar(norm, '_', '-')} else {};
    var dots: set<string> :=
      if '.' in norm then {ReplaceChar(norm, '.', '-'), ReplaceChar(norm, '.', '_'), Filter(norm, IsNotDot)}
      else {};
    var swapped := dashes + underscores + dots;
    assert forall v :: v in swapped ==> IsTripKey(v);
    {norm} + (if noSep != [] then {noSep} else {}) + swapped
  }

  /**
   * TripIdUtils.generateVariants: the normalised key and its re-spellings with the
   * separators removed, '-' and '_' swapped, and '.' replaced or removed; for an id that
   * does not normalise, only its trimmed lower-case form.  The source's final removal of
   * empty strings only ever hits an empty fallback, since every re-spelling is a key.
   */
  function GenerateVariants(raw: Option<string>): (r: set<string>)
    ensures raw.None? ==> r == {}
    ensures raw.Some? ==> (r == {} <==> Trim(raw.value) == [])
    ensures "" !in r
    ensures NormalizeSimple(raw).Some? ==> NormalizeSimple(raw).value in r
    ensures NormalizeSimple(raw).Some? ==> RemoveSeparators(NormalizeSimple(raw).value) in r
    ensures NormalizeSimple(raw).Some? && '-' in NormalizeSimple(raw).value ==>
              ReplaceChar(NormalizeSimple(raw).value, '-', '_') in r
    ensures NormalizeSimple(raw).Some? && '_' in NormalizeSimple(raw).value ==>
              ReplaceChar(NormalizeSimple(raw).value, '_', '-') in r
    ensures NormalizeSimple(raw).Some? && '.' in NormalizeSimple(raw).value ==>
              var norm := NormalizeSimple(raw).value;
              {ReplaceChar(norm, '.', '-'), ReplaceChar(norm, '.', '_'), Filter(norm, IsNotDot)} <= r
    ensures NormalizeSimple(raw).Some? ==> forall v :: v in r ==> IsTripKey(v)
    ensures raw.Some? && NormalizeSimple(raw).None? ==> r <= {ToLower(Trim(raw.value))}
  {
    if raw.None? then {}
    else
      match NormalizeSimple(raw)
      case None => FallbackVariant(raw.value)
      case Some(norm) => KeyVariants(norm)
  }

  /** A key starts with a letter or digit, so its separator-free form is never empty. */
  lemma SkeletonNotEmpty(norm: string)
    requires IsTripKey(norm)
    ensures RemoveSeparators(norm) != []
  {
    assert Filter(norm, IsSkeletonChar) == [norm[0]] + Filter(norm[1..], IsSkeletonChar);
  }

  /** The fallback of generateVariants: the trimmed lower-case id, unless it is empty. */
  function FallbackVariant(raw: string): (r: set<string>)
    ensures r == {} <==> Trim(raw) == []
    ensures r <= {ToLower(Trim(raw))} && "" !in r
  {
    var fallback := ToLower(Trim(raw));
    if fallback == [] then {} else {fallback}
  }

  /** Every re-spelling of a trip key is again a trip key. */
  lemma VariantShapes(norm: string)
    requires IsTripKey(norm)
    ensures RemoveSeparators(norm) != [] ==> IsTripKey(RemoveSeparators(norm))
    ensures IsTripKey(ReplaceChar(norm, '-', '_'))
    ensures IsTripKey(ReplaceChar(norm, '_', '-'))
    ensures IsTripKey(ReplaceChar(norm, '.', '-'))
    ensures IsTripKey(ReplaceChar(norm, '.', '_'))
    ensures IsTripKey(Filter(norm, IsNotDot))
  {
    FilterKeepsKeyShape(norm, IsSkeletonChar);
    FilterKeepsKeyShape(norm, IsNotDot);
  }

  lemma FilterKeepsKeyShape(s: string, keep: char -> bool)
    requires IsTripKey(s)
    requires forall c :: IsSeparator(c) || keep(c)
    ensures IsTripKey(Filter(s, keep))
  {
    assert Filter(s, keep) == [s[0]] + Filter(s[1..], keep);
    forall i | 0 <= i < |Filter(s, keep)|
      ensures IsLowerKeyChar(Filter(s, keep)[i])
    {
      assert Filter(s, keep)[i] in Filter(s, keep);
      var k :| 0 <= k < |s| && s[k] == Filter(s, keep)[i];
    }
  }

  /** Two ids that spell the same key once their separators are removed. */
  predicate SameSkeleton(a: string, b: string)
  {
    RemoveSeparators(a) == RemoveSeparators(b)
  }

  /** Every variant spells the same key up to its separators. */
  lemma VariantsShareSkeleton(norm: string)
    requires IsTripKey(norm)
    ensures forall v :: v in KeyVariants(norm) ==> SameSkeleton(v, norm)
  {
    VariantsAmong(norm);
    SkeletonOfEachVariant(norm);
  }

  /** The seven spellings KeyVariants may contain. */
  function VariantCandidates(norm: string): set<string>
  {
    {norm, RemoveSeparators(norm), ReplaceChar(norm, '-', '_'), ReplaceChar(norm, '_', '-'),
     ReplaceChar(norm, '.', '-'), ReplaceChar(norm, '.', '_'), Filter(norm, IsNotDot)}
  }

  lemma VariantsAmong(norm: string)
    requires IsTripKey(norm)
    ensures KeyVariants(norm) <= VariantCandidates(norm)
  {
  }

  lemma SkeletonOfEachVariant(norm: string)
    ensures forall v :: v in VariantCandidates(norm) ==> SameSkeleton(v, norm)
  {
    SkeletonIdempotent(norm);
    SkeletonOfReplace(norm, '-', '_');
    SkeletonOfReplace(norm, '_', '-');
    SkeletonOfReplace(norm, '.', '-');
    SkeletonOfReplace(norm, '.', '_');
    SkeletonOfDropDots(norm);
  }

  lemma SkeletonIdempotent(s: string)
    ensures RemoveSeparators(RemoveSeparators(s)) == RemoveSeparators(s)
  {
    var r := RemoveSeparators(s);
    assert forall i :: 0 <= i < |r| ==> IsSkeletonChar(r[i]) by {
      forall i | 0 <= i < |r| ensures IsSkeletonChar(r[i]) {
        assert r[i] in r;
      }
    }
    FilterKeepsAll(r, IsSkeletonChar);
  }

  lemma {:induction false} SkeletonOfReplace(s: string, a: char, b: char)
    requires IsSeparator(a) && IsSeparator(b)
    ensures RemoveSeparators(ReplaceChar(s, a, b)) == RemoveSeparators(s)
  {
    if s != [] {
      var t := ReplaceChar(s, a, b);
      assert t[1..] == ReplaceChar(s[1..], a, b);
      SkeletonOfReplace(s[1..], a, b);
      assert IsSeparator(t[0]) <==> IsSeparator(s[0]);
    }
  }

  lemma {:induction false} SkeletonOfDropDots(s: string)
    ensures RemoveSeparators(Filter(s, IsNotDot)) == RemoveSeparators(s)
  {
    if s != [] {
      var head := if IsNotDot(s[0]) then [s[0]] else [];
      SkeletonOfDropDots(s[1..]);
      FilterAppend(head, Filter(s[1..], IsNotDot), IsSkeletonChar);
      assert Filter(head, IsSkeletonChar) == Filter([s[0]], IsSkeletonChar) by {
        if head == [] {
          assert Filter([s[0]], IsSkeletonChar) == [] + Filter([s[0]][1..], IsSkeletonChar);
        }
      }
      FilterAppend([s[0]], s[1..], IsSkeletonChar);
      assert s == [s[0]] + s[1..];
    }
  }

  /** TripIdUtils.normalizeOrEmpty: the normalised key, or "" exactly when there is none. */
  function NormalizeOrEmpty(raw: Option<string>): (r: string)
    ensures r == "" <==> NormalizeSimple(raw).None?
    ensures NormalizeSimple(raw).Some? ==> r == NormalizeSimple(raw).value
  {
    match NormalizeSimple(raw)
    case None => ""
    case Some(n) => n
  }
}
