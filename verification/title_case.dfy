/** `toTitleCase(str, delimiters = ' ')`: the string is split around its delimiters
    by a capturing regular expression, delimiter pieces are kept as they are, and
    every other non-empty piece gets an upper-case first character and a lower-case
    rest. Case mapping is ASCII only. */
module TitleCase {
  import opened Wrappers
  import opened Seqs
  import opened Ascii

  /** The `delimiters` argument: a single string or a list of strings. */
  datatype Delimiters = One(d: string) | Many(ds: seq<string>)

  const DefaultDelimiters: Delimiters := One(" ")

  /** `Array.isArray(delimiters) ? delimiters : [delimiters]`. */
  function DelimiterList(d: Delimiters): seq<string>
  {
    match d
    case One(x) => [x]
    case Many(xs) => xs
  }

  /** The alternatives of the pattern `(d1|d2|...)`, every metacharacter escaped so that
      each alternative matches literally. An empty list gives the pattern `()`, whose
      only alternative is the empty string. */
  function Alternatives(ds: seq<string>): (alts: seq<string>)
    ensures |alts| >= 1
    ensures forall a :: a in alts ==> a in ds || a == ""
  {
    if |ds| == 0 then [""] else ds
  }

  /** The alternative a regular expression matches at position `q`: the first one, in
      list order, that occurs there. */
  function MatchAt(s: string, q: nat, alts: seq<string>): (r: Option<string>)
    requires q <= |s|
    ensures r.Some? ==> r.value in alts && IsPrefix(r.value, s[q..])
    ensures r.None? <==> forall a :: a in alts ==> !IsPrefix(a, s[q..])
    decreases |alts|
  {
    if |alts| == 0 then None
    else if IsPrefix(alts[0], s[q..]) then Some(alts[0])
    else MatchAt(s, q, alts[1..])
  }

  /** Alternation tries the alternatives in list order: the match is the first
      alternative that occurs at `q`, so an earlier one wins over a longer later one. */
  lemma {:induction false} MatchAtFirst(s: string, q: nat, alts: seq<string>)
    requires q <= |s|
    ensures var r := MatchAt(s, q, alts);
      r.Some? ==> exists i :: 0 <= i < |alts| && alts[i] == r.value &&
                    forall j :: 0 <= j < i ==> !IsPrefix(alts[j], s[q..])
    decreases |alts|
  {
    if |alts| > 0 {
      if IsPrefix(alts[0], s[q..]) {
        assert alts[0] == MatchAt(s, q, alts).value;
      } else {
        MatchAtFirst(s, q, alts[1..]);
        var r := MatchAt(s, q, alts[1..]);
        if r.Some? {
          var i :| 0 <= i < |alts| - 1 && alts[1..][i] == r.value &&
                   forall j :: 0 <= j < i ==> !IsPrefix(alts[1..][j], s[q..]);
          assert forall j :: 1 <= j < i + 1 ==> alts[j] == alts[1..][j - 1];
          assert alts[i + 1] == r.value;
        }
      }
    }
  }

  /** `s.split(/(alternatives)/)` as `RegExp.prototype[Symbol.split]` runs it: `p` is where
      the current piece starts and `q` the position being tried. A match that is empty
      and sits at `p` is skipped; any other match emits the piece before it followed by
      the captured delimiter, and scanning resumes after the match. */
  function SplitFrom(s: string, alts: seq<string>, p: nat, q: nat): (parts: seq<string>)
    requires p <= q <= |s|
    ensures |parts| % 2 == 1
    ensures forall i :: 0 <= i < |parts| && i % 2 == 1 ==> parts[i] in alts
    decreases |s| - q, q - p
  {
    if q == |s| then [s[p..]]
    else
      match MatchAt(s, q, alts)
      case None => SplitFrom(s, alts, p, q + 1)
      case Some(d) =>
        if q + |d| == p then SplitFrom(s, alts, p, q + 1)
        else [s[p..q], d] + SplitFrom(s, alts, q + |d|, q + |d|)
  }

  /** `str.split(regex)`: text and delimiter pieces alternating, starting and ending with
      text; the pieces join back to the input (`SplitJoin`). */
  function Split(s: string, ds: seq<string>): (parts: seq<string>)
    ensures |parts| % 2 == 1
    ensures forall i :: 0 <= i < |parts| && i % 2 == 1 ==> parts[i] in Alternatives(ds)
  {
    SplitFrom(s, Alternatives(ds), 0, 0)
  }

  /** The re-casing of one piece of the split. */
  function Render(part: string, ds: seq<string>): (r: string)
    ensures |r| == |part|
    ensures part in ds ==> r == part
  {
    if part in ds then part
    else if |part| > 0 then [Upper(part[0])] + LowerStr(part[1..])
    else part
  }

  function RenderParts(parts: seq<string>, ds: seq<string>): (rs: seq<string>)
    ensures |rs| == |parts|
  {
    seq(|parts|, i requires 0 <= i < |parts| => Render(parts[i], ds))
  }

  /** Only letter case changes: the result has the input's length and the same
      lower-case form. */
  function ToTitleCase(s: string, delimiters: Delimiters): (r: string)
    ensures |r| == |s|
    ensures LowerStr(r) == LowerStr(s)
  {
    if s == "" then s
    else
      var ds := DelimiterList(delimiters);
      RenderedLowerEq(s, ds);
      Concat(RenderParts(Split(s, ds), ds))
  }

  /** A title-cased word: no lower-case letter first, no upper-case letter after it. */
  predicate IsTitleWord(w: string)
  {
    |w| > 0 && !IsLower(w[0]) && forall k :: 1 <= k < |w| ==> !IsUpper(w[k])
  }

  predicate LetterFree(ds: seq<string>)
  {
    forall d :: d in ds ==> HasNoLetters(d)
  }

  // ---------------------------------------------------------------------------
  // The split is lossless

  lemma ConcatTwoMore(a: string, d: string, rest: seq<string>)
    ensures Concat([a, d] + rest) == a + (d + Concat(rest))
  {
    var parts := [a, d] + rest;
    assert parts[1..] == [d] + rest;
    assert ([d] + rest)[1..] == rest;
  }

  /** Joining the pieces of the split gives back the scanned text. */
  lemma {:induction false} SplitJoin(s: string, alts: seq<string>, p: nat, q: nat)
    requires p <= q <= |s|
    ensures Concat(SplitFrom(s, alts, p, q)) == s[p..]
    decreases |s| - q, q - p
  {
    if q == |s| {
      assert Concat([s[p..]]) == s[p..] + "";
    } else {
      var m := MatchAt(s, q, alts);
      if m.None? || q + |m.value| == p {
        SplitJoin(s, alts, p, q + 1);
        SplitSkip(s, alts, p, q);
      } else {
        var e := q + |m.value|;
        SplitJoin(s, alts, e, e);
        SplitJoinStep(s, alts, p, q);
      }
    }
  }

  /** The step of the split that emits a piece and a delimiter keeps the text, given that
      the rest of the split does. */
  lemma SplitJoinStep(s: string, alts: seq<string>, p: nat, q: nat)
    requires p <= q < |s|
    requires MatchAt(s, q, alts).Some? && q + |MatchAt(s, q, alts).value| != p
    requires var e := q + |MatchAt(s, q, alts).value|; Concat(SplitFrom(s, alts, e, e)) == s[e..]
    ensures Concat(SplitFrom(s, alts, p, q)) == s[p..]
  {
    var d := MatchAt(s, q, alts).value;
    var e := q + |d|;
    var rest := SplitFrom(s, alts, e, e);
    assert SplitFrom(s, alts, p, q) == [s[p..q], d] + rest;
    ConcatTwoMore(s[p..q], d, rest);
    assert d == s[q..e];
    assert s[p..] == s[p..q] + (s[q..e] + s[e..]);
  }

  // ---------------------------------------------------------------------------
  // The text pieces hold no delimiter

  /** No alternative starts anywhere inside `w`. */
  predicate FreeOf(w: string, alts: seq<string>)
  {
    forall k, a :: 0 <= k < |w| && a in alts ==> !IsPrefix(a, w[k..])
  }

  /** A stretch of the text where nothing matches holds no alternative. */
  lemma FreeRange(s: string, alts: seq<string>, p: nat, q: nat)
    requires p <= q <= |s|
    requires forall r :: p <= r < q ==> MatchAt(s, r, alts).None?
    ensures FreeOf(s[p..q], alts)
  {
    var w := s[p..q];
    forall k, a | 0 <= k < |w| && a in alts
      ensures !IsPrefix(a, w[k..])
    {
      assert MatchAt(s, p + k, alts).None?;
    }
  }

  /** When every alternative is non-empty, the even pieces of the split, the text
      between delimiters, contain no delimiter. `p..q` is the stretch already scanned
      without a match. */
  lemma {:induction false} PiecesFree(s: string, alts: seq<string>, p: nat, q: nat)
    requires p <= q <= |s|
    requires forall a :: a in alts ==> a != ""
    requires forall r :: p <= r < q ==> MatchAt(s, r, alts).None?
    ensures forall i :: 0 <= i < |SplitFrom(s, alts, p, q)| && i % 2 == 0 ==>
              FreeOf(SplitFrom(s, alts, p, q)[i], alts)
    decreases |s| - q, q - p
  {
    var parts := SplitFrom(s, alts, p, q);
    if q == |s| {
      FreeRange(s, alts, p, q);
      assert s[p..q] == s[p..];
    } else {
      var m := MatchAt(s, q, alts);
      if m.None? {
        PiecesFree(s, alts, p, q + 1);
        SplitSkip(s, alts, p, q);
      } else {
        var e: nat := q + |m.value|;
        assert m.value != "" && q + |m.value| != p;
        PiecesFree(s, alts, e, e);
        FreeRange(s, alts, p, q);
        var rest := SplitFrom(s, alts, e, e);
        assert parts == [s[p..q], m.value] + rest;
        forall i | 2 <= i < |parts| && i % 2 == 0
          ensures FreeOf(parts[i], alts)
        {
          assert parts[i] == rest[i - 2] && (i - 2) % 2 == 0;
        }
      }
    }
  }

  /** The words of the split: with non-empty delimiters, every even piece of `Split`
      contains none of them. */
  lemma WordsFree(s: string, ds: seq<string>)
    requires |ds| > 0 && forall d :: d in ds ==> d != ""
    ensures forall i :: 0 <= i < |Split(s, ds)| && i % 2 == 0 ==> FreeOf(Split(s, ds)[i], ds)
  {
    assert Alternatives(ds) == ds;
    PiecesFree(s, ds, 0, 0);
    assert Split(s, ds) == SplitFrom(s, ds, 0, 0);
  }

  // ---------------------------------------------------------------------------
  // Rendering keeps delimiters and title-cases the other pieces

  lemma RenderShape(part: string, ds: seq<string>)
    ensures part in ds ==> Render(part, ds) == part
    ensures part !in ds && |part| > 0 ==> IsTitleWord(Render(part, ds))
    ensures LowerStr(Render(part, ds)) == LowerStr(part)
  {
    if part !in ds && |part| > 0 {
      var r := Render(part, ds);
      assert r[0] == Upper(part[0]);
      forall k | 1 <= k < |r|
        ensures !IsUpper(r[k]) && Lower(r[k]) == Lower(part[k])
      {
        assert r[k] == Lower(part[k]);
      }
    }
  }

  /** The result is the concatenation of the rendered pieces of the split; the pieces
      join back to the input, every delimiter piece is copied unchanged, and every other
      non-empty piece comes out title-cased. */
  lemma TitleCaseStructure(s: string, delimiters: Delimiters)
    requires s != ""
    ensures var ds := DelimiterList(delimiters);
            var parts := Split(s, ds);
            && Concat(parts) == s
            && ToTitleCase(s, delimiters) == Concat(RenderParts(parts, ds))
            && (forall i :: 0 <= i < |parts| && i % 2 == 1 ==> RenderParts(parts, ds)[i] == parts[i])
            && (forall i :: 0 <= i < |parts| && parts[i] !in ds && |parts[i]| > 0 ==>
                  IsTitleWord(RenderParts(parts, ds)[i]))
            && (|ds| > 0 && (forall d :: d in ds ==> d != "") ==>
                  forall i :: 0 <= i < |parts| && i % 2 == 0 ==> FreeOf(parts[i], ds))
  {
    var ds := DelimiterList(delimiters);
    var parts := Split(s, ds);
    if |ds| > 0 && (forall d :: d in ds ==> d != "") {
      WordsFree(s, ds);
    }
    SplitJoin(s, Alternatives(ds), 0, 0);
    assert s[0..] == s;
    forall i | 0 <= i < |parts|
      ensures i % 2 == 1 ==> RenderParts(parts, ds)[i] == parts[i]
      ensures parts[i] !in ds && |parts[i]| > 0 ==> IsTitleWord(RenderParts(parts, ds)[i])
    {
      RenderShape(parts[i], ds);
    }
  }

  // ---------------------------------------------------------------------------
  // Length and lower-case form are preserved

  lemma {:induction false} ConcatLowerEq(a: seq<string>, b: seq<string>)
    requires |a| == |b|
    requires forall i :: 0 <= i < |a| ==> LowerStr(a[i]) == LowerStr(b[i])
    ensures LowerStr(Concat(a)) == LowerStr(Concat(b))
    decreases |a|
  {
    if |a| > 0 {
      ConcatLowerEq(a[1..], b[1..]);
      LowerStrConcat(a[0], Concat(a[1..]));
      LowerStrConcat(b[0], Concat(b[1..]));
    }
  }

  /** The rendered pieces lower-case to the input. */
  lemma RenderedLowerEq(s: string, ds: seq<string>)
    ensures LowerStr(Concat(RenderParts(Split(s, ds), ds))) == LowerStr(s)
  {
    var parts := Split(s, ds);
    SplitJoin(s, Alternatives(ds), 0, 0);
    assert s[0..] == s;
    forall i | 0 <= i < |parts|
      ensures LowerStr(RenderParts(parts, ds)[i]) == LowerStr(parts[i])
    {
      RenderShape(parts[i], ds);
    }
    ConcatLowerEq(RenderParts(parts, ds), parts);
  }

  // ---------------------------------------------------------------------------
  // With letter-free delimiters the result ignores the case of the input

  lemma LowerStrSlice(s: string, t: string, i: nat, j: nat)
    requires LowerStr(s) == LowerStr(t)
    requires i <= j <= |s|
    ensures LowerStr(s[i..j]) == LowerStr(t[i..j])
  {
    assert |t| == |s|;
    forall k | 0 <= k < j - i
      ensures LowerStr(s[i..j])[k] == LowerStr(t[i..j])[k]
    {
      assert LowerStr(s)[i + k] == LowerStr(t)[i + k];
    }
  }

  /** A letter-free delimiter occurs at the same positions of two strings that differ
      only in letter case. */
  lemma PrefixCaseInsensitive(a: string, s: string, t: string, q: nat)
    requires HasNoLetters(a)
    requires LowerStr(s) == LowerStr(t)
    requires q <= |s|
    ensures IsPrefix(a, s[q..]) <==> IsPrefix(a, t[q..])
  {
    assert |t| == |s|;
    if |a| <= |s| - q {
      forall k | 0 <= k < |a|
        ensures s[q + k] == a[k] <==> t[q + k] == a[k]
      {
        assert LowerStr(s)[q + k] == LowerStr(t)[q + k];
        if s[q + k] == a[k] {
          LowerEqNonLetter(s[q + k], t[q + k]);
        }
        if t[q + k] == a[k] {
          LowerEqNonLetter(t[q + k], s[q + k]);
        }
      }
      if IsPrefix(a, s[q..]) {
        assert forall k :: 0 <= k < |a| ==> s[q..][k] == s[q + k];
        assert t[q..][..|a|] == a;
      }
      if IsPrefix(a, t[q..]) {
        assert forall k :: 0 <= k < |a| ==> t[q..][k] == t[q + k];
        assert s[q..][..|a|] == a;
      }
    }
  }

  lemma {:induction false} MatchAtCaseInsensitive(s: string, t: string, q: nat, alts: seq<string>)
    requires LetterFree(alts)
    requires LowerStr(s) == LowerStr(t)
    requires q <= |s|
    ensures q <= |t| && MatchAt(s, q, alts) == MatchAt(t, q, alts)
    decreases |alts|
  {
    if |alts| > 0 {
      assert alts[0] in alts;
      PrefixCaseInsensitive(alts[0], s, t, q);
      assert forall a :: a in alts[1..] ==> a in alts;
      MatchAtCaseInsensitive(s, t, q, alts[1..]);
    }
  }

  /** Two lists of pieces agree piece by piece up to letter case. */
  predicate SameLower(a: seq<string>, b: seq<string>)
  {
    |a| == |b| && forall i :: 0 <= i < |a| ==> LowerStr(a[i]) == LowerStr(b[i])
  }

  lemma SameLowerCons(x: string, y: string, d: string, a: seq<string>, b: seq<string>)
    requires LowerStr(x) == LowerStr(y) && SameLower(a, b)
    ensures SameLower([x, d] + a, [y, d] + b)
  {
    var l := [x, d] + a;
    var r := [y, d] + b;
    forall i | 0 <= i < |l|
      ensures LowerStr(l[i]) == LowerStr(r[i])
    {
      if i >= 2 {
        assert l[i] == a[i - 2] && r[i] == b[i - 2];
      }
    }
  }

  /** Strings that differ only in letter case split at the same places. */
  lemma {:induction false} SplitCaseInsensitive(s: string, t: string, alts: seq<string>, p: nat, q: nat)
    requires LetterFree(alts)
    requires LowerStr(s) == LowerStr(t)
    requires p <= q <= |s|
    ensures q <= |t|
    ensures SameLower(SplitFrom(s, alts, p, q), SplitFrom(t, alts, p, q))
    decreases |s| - q, q - p
  {
    assert |t| == |s|;
    if q == |s| {
      SplitEndCaseInsensitive(s, t, alts, p);
    } else {
      MatchAtCaseInsensitive(s, t, q, alts);
      var m := MatchAt(s, q, alts);
      if m.None? || q + |m.value| == p {
        SplitCaseInsensitive(s, t, alts, p, q + 1);
        SplitSkip(s, alts, p, q);
        SplitSkip(t, alts, p, q);
      } else {
        var e := q + |m.value|;
        SplitCaseInsensitive(s, t, alts, e, e);
        SplitStepCaseInsensitive(s, t, alts, p, q);
      }
    }
  }

  /** At the end of the text the last piece is what is left. */
  lemma SplitEndCaseInsensitive(s: string, t: string, alts: seq<string>, p: nat)
    requires LowerStr(s) == LowerStr(t)
    requires p <= |s|
    ensures |t| == |s| && SameLower(SplitFrom(s, alts, p, |s|), SplitFrom(t, alts, p, |t|))
  {
    LowerStrSlice(s, t, p, |s|);
    assert s[p..|s|] == s[p..] && t[p..|s|] == t[p..];
  }

  /** Where nothing matches, or only an empty match at the piece's start, the scan moves on. */
  lemma SplitSkip(s: string, alts: seq<string>, p: nat, q: nat)
    requires p <= q < |s|
    requires MatchAt(s, q, alts).None? || q + |MatchAt(s, q, alts).value| == p
    ensures SplitFrom(s, alts, p, q) == SplitFrom(s, alts, p, q + 1)
  {
  }

  /** The step of the split that emits a piece and a delimiter, given that the rest of
      the two splits agree. */
  lemma SplitStepCaseInsensitive(s: string, t: string, alts: seq<string>, p: nat, q: nat)
    requires LowerStr(s) == LowerStr(t)
    requires p <= q < |s|
    requires MatchAt(s, q, alts) == MatchAt(t, q, alts)
    requires MatchAt(s, q, alts).Some? && q + |MatchAt(s, q, alts).value| != p
    requires var e := q + |MatchAt(s, q, alts).value|;
             SameLower(SplitFrom(s, alts, e, e), SplitFrom(t, alts, e, e))
    ensures SameLower(SplitFrom(s, alts, p, q), SplitFrom(t, alts, p, q))
  {
    var d := MatchAt(s, q, alts).value;
    var e := q + |d|;
    LowerStrSlice(s, t, p, q);
    var a := SplitFrom(s, alts, e, e);
    var b := SplitFrom(t, alts, e, e);
    assert SplitFrom(s, alts, p, q) == [s[p..q], d] + a;
    assert SplitFrom(t, alts, p, q) == [t[p..q], d] + b;
    SameLowerCons(s[p..q], t[p..q], d, a, b);
  }

  lemma NoLettersCaseEq(x: string, y: string)
    requires HasNoLetters(x)
    requires LowerStr(x) == LowerStr(y)
    ensures x == y
  {
    assert |x| == |y|;
    forall k | 0 <= k < |x|
      ensures x[k] == y[k]
    {
      assert LowerStr(x)[k] == LowerStr(y)[k];
      LowerEqNonLetter(x[k], y[k]);
    }
  }

  /** With letter-free delimiters, a piece renders the same whatever the case of its letters. */
  lemma RenderCaseInsensitive(x: string, y: string, ds: seq<string>)
    requires LetterFree(ds)
    requires LowerStr(x) == LowerStr(y)
    ensures Render(x, ds) == Render(y, ds)
  {
    if x in ds {
      NoLettersCaseEq(x, y);
    } else if y in ds {
      NoLettersCaseEq(y, x);
    } else if |x| > 0 {
      assert LowerStr(x)[0] == LowerStr(y)[0];
      UpperOfLowerEq(x[0], y[0]);
      LowerStrSlice(x, y, 1, |x|);
      assert x[1..|x|] == x[1..] && y[1..|y|] == y[1..];
    }
  }

  /** With letter-free delimiters, inputs that differ only in letter case give the same result. */
  lemma TitleCaseCaseInsensitive(s: string, t: string, delimiters: Delimiters)
    requires LetterFree(DelimiterList(delimiters))
    requires LowerStr(s) == LowerStr(t)
    ensures ToTitleCase(s, delimiters) == ToTitleCase(t, delimiters)
  {
    assert |s| == |t|;
    if s != "" {
      var ds := DelimiterList(delimiters);
      var alts := Alternatives(ds);
      assert LetterFree(alts);
      SplitCaseInsensitive(s, t, alts, 0, 0);
      var a := Split(s, ds);
      var b := Split(t, ds);
      forall i | 0 <= i < |a|
        ensures RenderParts(a, ds)[i] == RenderParts(b, ds)[i]
      {
        RenderCaseInsensitive(a[i], b[i], ds);
      }
      assert RenderParts(a, ds) == RenderParts(b, ds);
    }
  }

  /** With letter-free delimiters, title-casing twice is the same as title-casing once. */
  lemma TitleCaseIdempotent(s: string, delimiters: Delimiters)
    requires LetterFree(DelimiterList(delimiters))
    ensures ToTitleCase(ToTitleCase(s, delimiters), delimiters) == ToTitleCase(s, delimiters)
  {
    TitleCaseCaseInsensitive(ToTitleCase(s, delimiters), s, delimiters);
  }

  // ---------------------------------------------------------------------------
  // Small cases

  /** The empty string is returned as it is, whatever the delimiters. */
  lemma EmptyUnchanged(delimiters: Delimiters)
    ensures ToTitleCase("", delimiters) == ""
  {
  }

  lemma MatchSingle(s: string, q: nat, c: char)
    requires q < |s|
    ensures MatchAt(s, q, [[c]]) == if s[q] == c then Some([c]) else None
  {
    assert s[q..][..1] == [s[q]];
  }

  /** A single delimiter acts as a one-element list, and the default delimiter is a
      single space. */
  lemma DefaultSplitsOnSpace(s: string, d: string)
    ensures ToTitleCase(s, One(d)) == ToTitleCase(s, Many([d]))
    ensures ToTitleCase(s, DefaultDelimiters) == ToTitleCase(s, Many([" "]))
  {
  }

  /** Two words separated by the default space each get their own capital. */
  lemma SpaceSeparatedWords()
    ensures ToTitleCase("hI yO", DefaultDelimiters) == "Hi Yo"
  {
    var s := "hI yO";
    var alts := [" "];
    MatchSingle(s, 0, ' ');
    MatchSingle(s, 1, ' ');
    MatchSingle(s, 2, ' ');
    MatchSingle(s, 3, ' ');
    MatchSingle(s, 4, ' ');
    assert SplitFrom(s, alts, 3, 5) == ["yO"];
    assert SplitFrom(s, alts, 3, 4) == ["yO"];
    assert SplitFrom(s, alts, 3, 3) == ["yO"];
    assert MatchAt(s, 2, alts) == Some(" ");
    assert s[0..2] == "hI";
    assert SplitFrom(s, alts, 0, 2) == ["hI", " "] + ["yO"];
    assert SplitFrom(s, alts, 0, 1) == ["hI", " ", "yO"];
    assert SplitFrom(s, alts, 0, 0) == ["hI", " ", "yO"];
    assert LowerStr("I") == "i";
    assert LowerStr("O") == "o";
    assert Render("hI", alts) == "Hi";
    assert Render("yO", alts) == "Yo";
    assert RenderParts(["hI", " ", "yO"], alts) == ["Hi", " ", "Yo"];
    assert Concat(["Hi", " ", "Yo"]) == "Hi Yo";
  }

  /** Where no alternative matches from `q` on, the scan emits the rest as one piece. */
  lemma {:induction false} SplitNoMatch(s: string, alts: seq<string>, p: nat, q: nat)
    requires p <= q <= |s|
    requires forall k :: q <= k < |s| ==> MatchAt(s, k, alts).None?
    ensures SplitFrom(s, alts, p, q) == [s[p..]]
    decreases |s| - q
  {
    if q < |s| {
      SplitNoMatch(s, alts, p, q + 1);
    }
  }

  /** A string without the one-character delimiter `c` is a single word: its first
      character is upper-cased and the rest lower-cased, whatever `c` is, so a delimiter
      that is a regular-expression metacharacter matches only itself. */
  lemma NoDelimiterOneWord(s: string, c: char)
    requires |s| > 0 && c !in s
    ensures ToTitleCase(s, One([c])) == [Upper(s[0])] + LowerStr(s[1..])
  {
    forall k | 0 <= k < |s|
      ensures MatchAt(s, k, [[c]]).None?
    {
      MatchSingle(s, k, c);
    }
    SplitNoMatch(s, [[c]], 0, 0);
    assert s[0..] == s;
    assert s[0] in s;
    assert RenderParts([s], [[c]]) == [Render(s, [[c]])];
    assert Concat([Render(s, [[c]])]) == Render(s, [[c]]) + Concat([]);
  }

  /** The dot delimiter matches only a dot: "axb" is one word, "a.b" two. */
  lemma MetacharacterDelimiter()
    ensures ToTitleCase("axb", One(".")) == "Axb"
    ensures ToTitleCase("a.b", One(".")) == "A.B"
  {
    NoDelimiterOneWord("axb", '.');
    assert LowerStr("xb") == "xb";
    var s := "a.b";
    var alts := ["."];
    MatchSingle(s, 0, '.');
    MatchSingle(s, 1, '.');
    MatchSingle(s, 2, '.');
    assert SplitFrom(s, alts, 2, 3) == ["b"];
    assert SplitFrom(s, alts, 2, 2) == ["b"];
    assert MatchAt(s, 1, alts) == Some(".");
    assert s[0..1] == "a";
    assert SplitFrom(s, alts, 0, 1) == ["a", "."] + ["b"];
    assert SplitFrom(s, alts, 0, 0) == ["a", ".", "b"];
    assert LowerStr("") == "";
    assert Render("a", alts) == "A";
    assert Render("b", alts) == "B";
    assert RenderParts(["a", ".", "b"], alts) == ["A", ".", "B"];
    assert Concat(["A", ".", "B"]) == "A.B";
  }

  /** The order of the delimiters matters: with "a" listed before "ab" the shorter one
      wins at the start of "abc", and the other way round the longer one does. */
  lemma FirstAlternativeWins()
    ensures ToTitleCase("abc", Many(["a", "ab"])) == "aBc"
    ensures ToTitleCase("abc", Many(["ab", "a"])) == "abC"
  {
    var s := "abc";
    var ds1 := ["a", "ab"];
    assert s[0..] == "abc" && s[1..] == "bc" && s[2..] == "c";
    assert !IsPrefix("a", "bc") && !IsPrefix("ab", "bc") && !IsPrefix("a", "c") && !IsPrefix("ab", "c");
    assert MatchAt(s, 0, ds1) == Some("a");
    assert MatchAt(s, 1, ds1) == None;
    assert MatchAt(s, 2, ds1) == None;
    assert SplitFrom(s, ds1, 1, 3) == ["bc"];
    assert SplitFrom(s, ds1, 1, 1) == ["bc"];
    assert SplitFrom(s, ds1, 0, 0) == ["", "a", "bc"];
    assert Render("bc", ds1) == "Bc";
    assert RenderParts(["", "a", "bc"], ds1) == ["", "a", "Bc"];
    assert Concat(["", "a", "Bc"]) == "aBc";
    var ds2 := ["ab", "a"];
    assert MatchAt(s, 0, ds2) == Some("ab");
    assert MatchAt(s, 2, ds2) == None;
    assert SplitFrom(s, ds2, 2, 3) == ["c"];
    assert SplitFrom(s, ds2, 2, 2) == ["c"];
    assert SplitFrom(s, ds2, 0, 0) == ["", "ab", "c"];
    assert Render("c", ds2) == "C";
    assert RenderParts(["", "ab", "c"], ds2) == ["", "ab", "C"];
    assert Concat(["", "ab", "C"]) == "abC";
  }
}
