/**
 * Deriving a post-type identifier from a class name (`PostType::getPostType`):
 * drop backslashes, split before every upper-case ASCII letter, skip the pieces
 * `empty()` rejects, lower-case the rest and join them with `-`.
 */
module PostTypeName {
  import opened Php

  predicate IsUpper(c: char) { 'A' <= c <= 'Z' }

  predicate IsLetter(c: char) { 'A' <= c <= 'Z' || 'a' <= c <= 'z' }

  predicate IsDigit(c: char) { '0' <= c <= '9' }

  /** A character PHP allows in a name: `[a-zA-Z0-9_\x80-\xff]`. */
  predicate IsNameChar(c: char) {
    IsLetter(c) || IsDigit(c) || c == '_' || c >= '\U{80}'
  }

  /**
   * A PHP qualified class name, as `get_called_class()` returns it: name
   * characters and backslashes, and no segment starts with a digit.
   */
  predicate IsClassName(name: string) {
    (forall i :: 0 <= i < |name| ==> IsNameChar(name[i]) || name[i] == '\\') &&
    (name != [] ==> !IsDigit(name[0])) &&
    (forall i :: 0 <= i < |name| - 1 && name[i] == '\\' ==> !IsDigit(name[i + 1]))
  }

  // ---------------------------------------------------------------------------
  // The string functions `getPostType` calls

  /** `strtolower` on one character: ASCII letters only, everything else unchanged. */
  function LowerChar(c: char): (r: char)
    ensures !IsUpper(r)
    ensures IsLetter(r) <==> IsLetter(c)
    ensures !IsLetter(c) ==> r == c
  {
    if IsUpper(c) then (c as int + 32) as char else c
  }

  /** `strtolower` */
  function Lower(s: string): (r: string)
    ensures |r| == |s|
  {
    if s == [] then [] else [LowerChar(s[0])] + Lower(s[1..])
  }

  lemma LowerCons(c: char, t: string)
    ensures Lower([c] + t) == [LowerChar(c)] + Lower(t)
  {
    assert ([c] + t)[0] == c && ([c] + t)[1..] == t;
  }

  /** `strtolower` leaves no upper-case letter and keeps exactly the characters that are not letters. */
  lemma {:induction false} LowerChars(s: string, c: char)
    ensures c in Lower(s) ==> !IsUpper(c)
    ensures !IsLetter(c) ==> (c in Lower(s) <==> c in s)
    decreases |s|
  {
    if s != [] {
      LowerChars(s[1..], c);
    }
  }

  /** `str_replace('\\', '', $s)`: the file declares no namespace, so `__NAMESPACE__ . '\\'` is a lone backslash. */
  function StripBackslashes(s: string): (r: string)
    ensures '\\' !in r
    ensures forall c :: c != '\\' ==> (c in r <==> c in s)
  {
    if s == [] then []
    else (if s[0] == '\\' then [] else [s[0]]) + StripBackslashes(s[1..])
  }

  function Concat(pieces: seq<string>): string {
    if pieces == [] then [] else pieces[0] + Concat(pieces[1..])
  }

  /**
   * `preg_split('/(?=[A-Z])/', $s)`: a zero-width split before every upper-case
   * letter, so a string that starts with one yields an empty first piece.
   */
  function SplitBeforeUpper(s: string): (pieces: seq<string>)
    ensures |pieces| >= 1
  {
    if s == [] then [[]] else PrependChar(s[0], SplitBeforeUpper(s[1..]))
  }

  /** The split of `[c] + t` from the split of `t`: an upper-case `c` closes the piece before it. */
  function PrependChar(c: char, pieces: seq<string>): seq<string>
    requires |pieces| >= 1
  {
    if IsUpper(c) then [[], [c] + pieces[0]] + pieces[1..]
    else [[c] + pieces[0]] + pieces[1..]
  }

  /** The pieces `getPostType` keeps, in order, each lower-cased. */
  function KeptParts(parts: seq<string>): (r: seq<string>)
    ensures |r| <= |parts|
  {
    if parts == [] then [] else Keep(parts[0]) + KeptParts(parts[1..])
  }

  /** One turn of the `foreach`: skip a piece `empty()` rejects, lower-case the others. */
  function Keep(part: string): seq<string> {
    if IsEmpty(Str(part)) then [] else [Lower(part)]
  }

  /** A piece that starts with anything but `0` is kept. */
  lemma KeepNonZero(c: char, t: string)
    requires c != '0'
    ensures Keep([c] + t) == [Lower([c] + t)]
  {
    assert ([c] + t)[0] == c;
  }

  /** `implode($glue, $parts)` */
  function Implode(glue: string, parts: seq<string>): string {
    if parts == [] then []
    else if |parts| == 1 then parts[0]
    else parts[0] + glue + Implode(glue, parts[1..])
  }

  /** The identifier `getPostType` derives from the called class's name. */
  function PostTypeOf(className: string): string {
    Implode("-", KeptParts(SplitBeforeUpper(StripBackslashes(className))))
  }

  /** `PostType::getPostType()`, with `get_called_class()` passed in as `className`. */
  method GetPostType(className: string) returns (postType: string)
    ensures postType == PostTypeOf(className)
  {
    var name := StripBackslashes(className);
    var classNameParts := SplitBeforeUpper(name);
    var postTypeParts: seq<string> := [];
    for i := 0 to |classNameParts|
      invariant postTypeParts == KeptParts(classNameParts[..i])
    {
      var part := classNameParts[i];
      KeptPartsSnoc(classNameParts[..i], part);
      assert classNameParts[..i + 1] == classNameParts[..i] + [part];
      if IsEmpty(Str(part)) {
        continue;
      }
      postTypeParts := postTypeParts + [Lower(part)];
    }
    assert classNameParts[..|classNameParts|] == classNameParts;
    postType := Implode("-", postTypeParts);
  }

  lemma {:induction false} KeptPartsSnoc(parts: seq<string>, part: string)
    ensures KeptParts(parts + [part]) == KeptParts(parts) + Keep(part)
    decreases |parts|
  {
    if parts == [] {
      assert [] + [part] == [part];
      assert KeptParts([part]) == Keep(part) + KeptParts([]);
    } else {
      assert (parts + [part])[0] == parts[0];
      assert (parts + [part])[1..] == parts[1..] + [part];
      KeptPartsSnoc(parts[1..], part);
    }
  }

  // ---------------------------------------------------------------------------
  // What the split produces

  /** Pieces as the split produces them: the first holds no upper-case letter; each later one is an upper-case letter and no other. */
  predicate UpperLed(pieces: seq<string>) {
    |pieces| >= 1 &&
    (forall c :: c in pieces[0] ==> !IsUpper(c)) &&
    (forall k :: 1 <= k < |pieces| ==>
      pieces[k] != [] && IsUpper(pieces[k][0]) && forall c :: c in pieces[k][1..] ==> !IsUpper(c))
  }

  lemma PrependCharShape(c: char, pieces: seq<string>)
    requires UpperLed(pieces)
    ensures UpperLed(PrependChar(c, pieces))
  {
    var first := [c] + pieces[0];
    assert first[0] == c && first[1..] == pieces[0];
    var r := PrependChar(c, pieces);
    if IsUpper(c) {
      assert r[0] == [] && r[1] == first;
      forall k | 2 <= k < |r|
        ensures r[k] == pieces[k - 1]
      {
      }
    } else {
      assert r[0] == first;
      forall k | 1 <= k < |r|
        ensures r[k] == pieces[k]
      {
      }
    }
  }

  /** The two shapes of `PrependChar`, each as a single piece in front of the rest. */
  lemma PrependCharCons(c: char, pieces: seq<string>)
    requires |pieces| >= 1
    ensures IsUpper(c) ==> PrependChar(c, pieces) == [[]] + ([[c] + pieces[0]] + pieces[1..])
    ensures !IsUpper(c) ==> PrependChar(c, pieces) == [[c] + pieces[0]] + pieces[1..]
  {
  }

  lemma ConcatCons(piece: string, pieces: seq<string>)
    ensures Concat([piece] + pieces) == piece + Concat(pieces)
  {
    assert ([piece] + pieces)[0] == piece && ([piece] + pieces)[1..] == pieces;
  }

  lemma PrependCharConcat(c: char, pieces: seq<string>)
    requires |pieces| >= 1
    ensures Concat(PrependChar(c, pieces)) == [c] + Concat(pieces)
  {
    var first := [c] + pieces[0];
    var rest := Concat(pieces[1..]);
    PrependCharCons(c, pieces);
    assert pieces == [pieces[0]] + pieces[1..];
    ConcatCons(pieces[0], pieces[1..]);
    ConcatCons(first, pieces[1..]);
    if IsUpper(c) {
      ConcatCons([], [first] + pieces[1..]);
    }
    AppendAssoc([c], pieces[0], rest, [c] + Concat(pieces), Concat(pieces), first);
  }

  /**
   * The split's pieces put back together give the string again; the first piece
   * holds no upper-case letter, and every later piece is one upper-case letter
   * followed by characters that are not upper-case letters.
   */
  lemma {:induction false} SplitBeforeUpperPieces(s: string)
    ensures Concat(SplitBeforeUpper(s)) == s
    ensures UpperLed(SplitBeforeUpper(s))
    decreases |s|
  {
    if s != [] {
      SplitBeforeUpperPieces(s[1..]);
      PrependCharShape(s[0], SplitBeforeUpper(s[1..]));
      PrependCharConcat(s[0], SplitBeforeUpper(s[1..]));
    }
  }

  /** Every character of a piece is a character of the concatenation. */
  lemma {:induction false} ConcatHolds(pieces: seq<string>, k: nat, c: char)
    requires k < |pieces|
    ensures c in pieces[k] ==> c in Concat(pieces)
    decreases k
  {
    if k > 0 {
      ConcatHolds(pieces[1..], k - 1, c);
    }
  }

  /** Every character of every piece of the split of `s` is a character of `s`. */
  lemma SplitChars(s: string, k: nat, c: char)
    requires k < |SplitBeforeUpper(s)|
    ensures c in SplitBeforeUpper(s)[k] ==> c in s
  {
    SplitBeforeUpperPieces(s);
    ConcatHolds(SplitBeforeUpper(s), k, c);
  }

  /** Each kept part is the lower-cased form of a piece that `empty()` accepts. */
  lemma {:induction false} KeptPartSource(parts: seq<string>, k: nat) returns (j: nat)
    requires k < |KeptParts(parts)|
    ensures j < |parts| && !IsEmpty(Str(parts[j])) && KeptParts(parts)[k] == Lower(parts[j])
    decreases |parts|
  {
    if IsEmpty(Str(parts[0])) {
      j := KeptPartSource(parts[1..], k);
      j := j + 1;
    } else if k == 0 {
      j := 0;
    } else {
      j := KeptPartSource(parts[1..], k - 1);
      j := j + 1;
    }
  }

  /** Every character of an `implode` comes from the glue or from one of the parts. */
  lemma {:induction false} ImplodeSource(glue: string, parts: seq<string>, c: char) returns (k: nat)
    requires c in Implode(glue, parts)
    ensures c in glue || (k < |parts| && c in parts[k])
    decreases |parts|
  {
    k := 0;
    if |parts| > 1 && c !in parts[0] && c !in glue {
      k := ImplodeSource(glue, parts[1..], c);
      k := k + 1;
    }
  }

  // ---------------------------------------------------------------------------
  // What the derived identifier looks like

  /** The derived identifier holds no upper-case ASCII letter and no backslash. */
  lemma PostTypeIsLowerCase(className: string)
    ensures forall c :: c in PostTypeOf(className) ==> !IsUpper(c) && c != '\\'
  {
    var s := StripBackslashes(className);
    var pieces := SplitBeforeUpper(s);
    var parts := KeptParts(pieces);
    forall c | c in PostTypeOf(className)
      ensures !IsUpper(c) && c != '\\'
    {
      var k := ImplodeSource("-", parts, c);
      if c !in "-" {
        var j := KeptPartSource(pieces, k);
        LowerChars(pieces[j], c);
        SplitChars(s, j, c);
      }
    }
  }

  /** Every hyphen of `r` stands strictly inside it, between two characters that are not hyphens. */
  predicate WellHyphenated(r: string) {
    forall i :: 0 <= i < |r| && r[i] == '-' ==> 0 < i < |r| - 1 && r[i - 1] != '-' && r[i + 1] != '-'
  }

  lemma {:induction false} ImplodeWellHyphenated(parts: seq<string>)
    requires forall k :: 0 <= k < |parts| ==> parts[k] != [] && '-' !in parts[k]
    ensures WellHyphenated(Implode("-", parts))
    ensures parts != [] ==> Implode("-", parts) != []
    decreases |parts|
  {
    if |parts| > 1 {
      var q, rest := parts[0], Implode("-", parts[1..]);
      ImplodeWellHyphenated(parts[1..]);
      var r := q + "-" + rest;
      assert r == Implode("-", parts);
      assert rest != [] && rest[0] != '-';
      forall i | 0 <= i < |q|
        ensures r[i] != '-'
      {
        assert r[i] == q[i] && q[i] in q;
      }
      forall i | |q| <= i < |r| && r[i] == '-'
        ensures 0 < i < |r| - 1 && r[i - 1] != '-' && r[i + 1] != '-'
      {
        if i == |q| {
          assert r[i - 1] == q[|q| - 1] && q[|q| - 1] in q;
          assert r[i + 1] == rest[0];
        } else {
          assert r[i] == rest[i - |q| - 1];
        }
      }
    }
  }

  /**
   * For a class name without hyphens (no PHP class name has one), the derived
   * identifier neither starts nor ends with `-` and never holds `--`: empty
   * pieces are skipped before the join.
   */
  lemma PostTypeIsWellHyphenated(className: string)
    requires '-' !in className
    ensures WellHyphenated(PostTypeOf(className))
  {
    var s := StripBackslashes(className);
    var pieces := SplitBeforeUpper(s);
    var parts := KeptParts(pieces);
    forall k | 0 <= k < |parts|
      ensures parts[k] != [] && '-' !in parts[k]
    {
      var j := KeptPartSource(pieces, k);
      LowerChars(pieces[j], '-');
      SplitChars(s, j, '-');
    }
    ImplodeWellHyphenated(parts);
  }

  // ---------------------------------------------------------------------------
  // An independent, character-by-character definition of the identifier

  /**
   * Kebab case: every character lower-cased, with a hyphen in front of each
   * upper-case letter except one at the very start (`atStart`).
   */
  function KebabFrom(s: string, atStart: bool): string {
    if s == [] then [] else KebabChar(s[0], atStart) + KebabFrom(s[1..], false)
  }

  function KebabChar(c: char, atStart: bool): string {
    (if IsUpper(c) && !atStart then "-" else "") + [LowerChar(c)]
  }

  function KebabCase(s: string): string {
    KebabFrom(s, true)
  }

  /** Each part preceded by a hyphen. */
  function Hyphenated(parts: seq<string>): string {
    if parts == [] then [] else "-" + parts[0] + Hyphenated(parts[1..])
  }

  lemma HyphenatedCons(part: string, parts: seq<string>)
    ensures Hyphenated([part] + parts) == "-" + part + Hyphenated(parts)
  {
    assert ([part] + parts)[0] == part && ([part] + parts)[1..] == parts;
  }

  lemma KeptPartsCons(part: string, parts: seq<string>)
    ensures KeptParts([part] + parts) == Keep(part) + KeptParts(parts)
  {
    assert ([part] + parts)[0] == part && ([part] + parts)[1..] == parts;
  }

  lemma {:induction false} ImplodeCons(part: string, parts: seq<string>)
    ensures Implode("-", [part] + parts) == part + Hyphenated(parts)
    decreases |parts|
  {
    if parts != [] {
      assert ([part] + parts)[1..] == parts;
      assert parts == [parts[0]] + parts[1..];
      ImplodeCons(parts[0], parts[1..]);
    }
  }

  /** Rewrites `x + (l + r)` as `(x + l) + r` for named strings, so the solver need not unfold their definitions. */
  lemma AppendAssoc(x: string, l: string, r: string, whole: string, tail: string, head: string)
    requires whole == x + tail && tail == l + r && head == x + l
    ensures whole == head + r
  {
  }

  /** The kebab case of the characters after a piece boundary, in terms of the pieces. */
  predicate KebabMatches(kebab: string, pieces: seq<string>)
    requires |pieces| >= 1
  {
    kebab == Lower(pieces[0]) + Hyphenated(KeptParts(pieces[1..]))
  }

  lemma KebabStep(c: char, kebab: string, pieces: seq<string>)
    requires |pieces| >= 1 && KebabMatches(kebab, pieces)
    ensures KebabMatches(KebabChar(c, false) + kebab, PrependChar(c, pieces))
  {
    var first := [c] + pieces[0];
    var rest := Hyphenated(KeptParts(pieces[1..]));
    var r := PrependChar(c, pieces);
    LowerCons(c, pieces[0]);
    PrependCharCons(c, pieces);
    if IsUpper(c) {
      assert r[0] == [] && r[1..] == [first] + pieces[1..];
      KeepNonZero(c, pieces[0]);
      KeptPartsCons(first, pieces[1..]);
      HyphenatedCons(Lower(first), KeptParts(pieces[1..]));
      AppendAssoc("-" + [LowerChar(c)], Lower(pieces[0]), rest,
        KebabChar(c, false) + kebab, kebab, "-" + Lower(first));
    } else {
      assert r[0] == first && r[1..] == pieces[1..];
      AppendAssoc([LowerChar(c)], Lower(pieces[0]), rest,
        KebabChar(c, false) + kebab, kebab, Lower(first));
    }
  }

  lemma {:induction false} KebabFromSplit(s: string)
    ensures KebabMatches(KebabFrom(s, false), SplitBeforeUpper(s))
    decreases |s|
  {
    if s != [] {
      KebabFromSplit(s[1..]);
      KebabStep(s[0], KebabFrom(s[1..], false), SplitBeforeUpper(s[1..]));
    }
  }

  lemma {:induction false} StrippedClassNameStart(name: string)
    requires IsClassName(name)
    ensures var s := StripBackslashes(name); s == [] || !IsDigit(s[0])
    decreases |name|
  {
    if name != [] && name[0] == '\\' {
      var t := name[1..];
      forall i | 0 <= i < |t| - 1 && t[i] == '\\'
        ensures !IsDigit(t[i + 1])
      {
        assert t[i] == name[i + 1] && t[i + 1] == name[i + 2];
      }
      forall i | 0 <= i < |t|
        ensures IsNameChar(t[i]) || t[i] == '\\'
      {
        assert t[i] == name[i + 1];
      }
      StrippedClassNameStart(t);
      assert StripBackslashes(name) == [] + StripBackslashes(t);
    } else if name != [] {
      assert StripBackslashes(name) == [name[0]] + StripBackslashes(name[1..]);
    }
  }

  /** The pieces kept from the split of `[c] + t`, in terms of the split of `t`, when `c` is not `0`. */
  lemma KeptPartsPrepend(c: char, pieces: seq<string>)
    requires |pieces| >= 1 && c != '0'
    ensures KeptParts(PrependChar(c, pieces)) == [Lower([c] + pieces[0])] + KeptParts(pieces[1..])
  {
    var first := [c] + pieces[0];
    KeepNonZero(c, pieces[0]);
    KeptPartsCons(first, pieces[1..]);
    PrependCharCons(c, pieces);
    if IsUpper(c) {
      KeptPartsCons([], [first] + pieces[1..]);
      assert Keep([]) == [];
    }
  }

  /** The kebab case from the split, one character at a time, for a string starting with anything but `0`. */
  lemma KebabOfSplitStep(c: char, kebab: string, pieces: seq<string>)
    requires c != '0' && |pieces| >= 1 && KebabMatches(kebab, pieces)
    ensures Implode("-", KeptParts(PrependChar(c, pieces))) == KebabChar(c, true) + kebab
  {
    var first := [c] + pieces[0];
    var rest := Hyphenated(KeptParts(pieces[1..]));
    KeptPartsPrepend(c, pieces);
    ImplodeCons(Lower(first), KeptParts(pieces[1..]));
    LowerCons(c, pieces[0]);
    assert KebabChar(c, true) == [LowerChar(c)];
    AppendAssoc([LowerChar(c)], Lower(pieces[0]), rest,
      KebabChar(c, true) + kebab, kebab, Lower(first));
  }

  /** Joining the kept pieces of a split is the kebab case, unless the string starts with `0`. */
  lemma KebabOfSplit(s: string)
    requires s == [] || s[0] != '0'
    ensures Implode("-", KeptParts(SplitBeforeUpper(s))) == KebabCase(s)
  {
    if s != [] {
      var c, t := s[0], s[1..];
      KebabFromSplit(t);
      assert SplitBeforeUpper(s) == PrependChar(c, SplitBeforeUpper(t));
      assert KebabCase(s) == KebabChar(c, true) + KebabFrom(t, false);
      KebabOfSplitStep(c, KebabFrom(t, false), SplitBeforeUpper(t));
    }
  }

  /**
   * For every PHP class name, the derived identifier is the kebab case of the
   * backslash-free name: `NewsArticle` gives `news-article`.
   */
  lemma PostTypeIsKebabCase(className: string)
    requires IsClassName(className)
    ensures PostTypeOf(className) == KebabCase(StripBackslashes(className))
  {
    StrippedClassNameStart(className);
    KebabOfSplit(StripBackslashes(className));
  }

  function RemoveHyphens(s: string): string {
    if s == [] then [] else (if s[0] == '-' then [] else [s[0]]) + RemoveHyphens(s[1..])
  }

  lemma {:induction false} RemoveHyphensAppend(a: string, b: string)
    ensures RemoveHyphens(a + b) == RemoveHyphens(a) + RemoveHyphens(b)
    decreases |a|
  {
    if a == [] {
      assert a + b == b;
    } else {
      assert (a + b)[1..] == a[1..] + b;
      RemoveHyphensAppend(a[1..], b);
    }
  }

  lemma {:induction false} RemoveHyphensKebab(s: string, atStart: bool)
    requires '-' !in s
    ensures RemoveHyphens(KebabFrom(s, atStart)) == Lower(s)
    decreases |s|
  {
    if s != [] {
      var c := s[0];
      assert c in s && c != '-';
      assert '-' !in s[1..];
      RemoveHyphensKebab(s[1..], false);
      RemoveHyphensAppend(KebabChar(c, atStart), KebabFrom(s[1..], false));
      RemoveHyphensAppend(if IsUpper(c) && !atStart then "-" else "", [LowerChar(c)]);
      assert RemoveHyphens([LowerChar(c)]) == [LowerChar(c)];
    }
  }

  /**
   * Deleting the hyphens from the derived identifier gives back the lower-cased,
   * backslash-free class name: the hyphens are the only thing the derivation adds.
   */
  lemma PostTypeSpellsClassName(className: string)
    requires IsClassName(className)
    ensures RemoveHyphens(PostTypeOf(className)) == Lower(StripBackslashes(className))
  {
    PostTypeIsKebabCase(className);
    assert '-' !in className;
    RemoveHyphensKebab(StripBackslashes(className), true);
  }
}
