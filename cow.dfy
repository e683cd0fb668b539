/** Clone-on-write values: `abs_all` over a `Cow<[i32]>`, the `.txt` to
    `.md` rewrite, `how_many_items` and `Token::new`. */
module CowDemo {
  import opened Ints
  import opened Decimal

  /** `Cow<'a, [T]>` and `Cow<'a, str>`: borrowed data, or an owned copy. */
  datatype Cow<T> = Borrowed(borrowed: seq<T>) | Owned(owned: seq<T>)
  {
    /** What the `Cow` dereferences to. */
    function Contents(): seq<T>
    {
      match this
      case Borrowed(b) => b
      case Owned(o) => o
    }
  }

  /** `Cow::to_mut`: a borrowed value is cloned into an owned one. */
  function ToMut<T>(c: Cow<T>): (r: Cow<T>)
    ensures r.Owned? && r.Contents() == c.Contents()
    ensures c.Owned? ==> r == c
  {
    Owned(c.Contents())
  }

  function Abs(v: i32): int
  {
    if v < 0 then -(v as int) else v as int
  }

  /** Negating `i32::MIN` overflows. */
  predicate NegatableAll(s: seq<i32>)
  {
    forall k :: 0 <= k < |s| ==> s[k] != I32_MIN
  }

  predicate NoNegative(s: seq<int>)
  {
    forall k :: 0 <= k < |s| ==> s[k] >= 0
  }

  /** `abs_all`: every negative element is replaced by its negation through
      `to_mut`, so the data is cloned at the first negative element and not
      before. */
  method AbsAll(input: Cow<i32>) returns (output: Cow<i32>)
    requires NegatableAll(input.Contents())
    ensures |output.Contents()| == |input.Contents()|
    ensures forall k :: 0 <= k < |input.Contents()| ==> output.Contents()[k] == Abs(input.Contents()[k])
    ensures output.Borrowed? <==> input.Borrowed? && NoNegative(input.Contents())
    ensures output.Borrowed? ==> output == input
  {
    output := input;
    ghost var s := input.Contents();
    for i := 0 to |input.Contents()|
      invariant |output.Contents()| == |s|
      invariant forall k :: 0 <= k < i ==> output.Contents()[k] == Abs(s[k])
      invariant forall k :: i <= k < |s| ==> output.Contents()[k] == s[k]
      invariant output.Borrowed? <==> input.Borrowed? && forall k :: 0 <= k < i ==> s[k] >= 0
      invariant output.Borrowed? ==> output == input
    {
      var v := output.Contents()[i];
      if v < 0 {
        var owned := ToMut(output).owned;
        output := Owned(owned[i := -v]);
      }
    }
  }

  /** `s.ends_with(suffix)`. */
  predicate EndsWith(s: string, suffix: string)
  {
    |suffix| <= |s| && s[|s| - |suffix|..] == suffix
  }

  /** `pattern` occurs in `s` at index `i`. */
  predicate MatchAt(s: string, pattern: string, i: int)
  {
    0 <= i && i + |pattern| <= |s| && s[i..i + |pattern|] == pattern
  }

  /** A match past the end of `a` in `a + b` is a match in `b`. */
  lemma MatchShift(a: string, b: string, pattern: string, i: int)
    requires i >= |a| && MatchAt(a + b, pattern, i)
    ensures MatchAt(b, pattern, i - |a|)
  {
    assert (a + b)[i..i + |pattern|] == b[i - |a|..i - |a| + |pattern|];
  }

  /** `str::replace`: every occurrence of `from`, scanned left to right
      without overlaps, replaced by `to`. */
  function Replace(s: string, from: string, to: string): string
    requires from != []
    decreases |s|
  {
    if |s| < |from| then s
    else if s[..|from|] == from then to + Replace(s[|from|..], from, to)
    else [s[0]] + Replace(s[1..], from, to)
  }

  /** The name without its four-character extension. */
  function Stem(s: string): string
    requires |s| >= 4
  {
    s[..|s| - 4]
  }

  /** `replace_txt_ext_to_md_ext`: a name ending in `.txt` is rewritten into
      a new string, with the final `.txt` and every earlier one turned into
      `.md` and no `.txt` left in it; any other name is lent back as it is. */
  function ReplaceTxtExtToMdExt(s: string): (r: Cow<char>)
    ensures r.Owned? <==> EndsWith(s, ".txt")
    ensures r.Borrowed? ==> r.Contents() == s
    ensures r.Owned? ==> r.Contents() == Replace(Stem(s), ".txt", ".md") + ".md"
    ensures r.Owned? && (forall i :: !MatchAt(Stem(s), ".txt", i)) ==> r.Contents() == Stem(s) + ".md"
    ensures r.Owned? ==> forall i :: !MatchAt(r.Contents(), ".txt", i)
  {
    if EndsWith(s, ".txt") then
      ReplaceRemovesTxt(s);
      ReplaceSuffix(s);
      if forall i | 0 <= i < |s| :: !MatchAt(Stem(s), ".txt", i) then
        ReplaceAbsent(Stem(s), ".txt", ".md");
        Owned(Replace(s, ".txt", ".md"))
      else
        Owned(Replace(s, ".txt", ".md"))
    else Borrowed(s)
  }

  /** The `.txt` a name ends with is the last one `replace` meets: it cannot
      overlap an earlier match, since `.` occurs in `.txt` only at its head. */
  lemma ReplaceSuffix(s: string)
    requires EndsWith(s, ".txt")
    ensures Replace(s, ".txt", ".md") == Replace(Stem(s), ".txt", ".md") + ".md"
  {
    assert s == Stem(s) + ".txt";
    ReplaceAppendTxt(Stem(s));
  }

  /** Rewriting `h` followed by `.txt` rewrites `h` and then that `.txt`. */
  lemma {:induction false} ReplaceAppendTxt(h: string)
    ensures Replace(h + ".txt", ".txt", ".md") == Replace(h, ".txt", ".md") + ".md"
    decreases |h|
  {
    var s := h + ".txt";
    if h == [] {
      assert s == ".txt" && s[4..] == [];
    } else if |h| >= 4 && s[..4] == ".txt" {
      assert h[..4] == s[..4] && s[4..] == h[4..] + ".txt";
      ReplaceAppendTxt(h[4..]);
    } else {
      assert s[1..] == h[1..] + ".txt";
      ReplaceAppendTxt(h[1..]);
      if |h| >= 4 {
        assert h[..4] == s[..4];
      } else {
        assert s[..4][|h|] == s[|h|] == '.' != ".txt"[|h|];
        assert [h[0]] + h[1..] == h;
      }
    }
  }

  /** Text with no `.` in it that heads the rewrite heads the original too:
      every `.md` written starts with `.`. */
  lemma {:induction false} ReplaceKeepsDotFreeHead(s: string, w: string)
    requires forall i :: 0 <= i < |w| ==> w[i] != '.'
    requires |w| <= |Replace(s, ".txt", ".md")| && Replace(s, ".txt", ".md")[..|w|] == w
    ensures |w| <= |s| && s[..|w|] == w
    decreases |s|
  {
    var r := Replace(s, ".txt", ".md");
    if |s| >= 4 && w != [] {
      if s[..4] == ".txt" {
        ReplacedHead(s);
        assert false;
      } else {
        var rest := Replace(s[1..], ".txt", ".md");
        assert r == [s[0]] + rest;
        assert rest[..|w| - 1] == w[1..];
        ReplaceKeepsDotFreeHead(s[1..], w[1..]);
        assert s[..|w|] == [s[0]] + s[1..][..|w| - 1];
      }
    }
  }

  /** A replacement at the head writes `.` first. */
  lemma ReplacedHead(s: string)
    requires |s| >= 4 && s[..4] == ".txt"
    ensures Replace(s, ".txt", ".md")[0] == '.'
  {
  }

  /** No `.txt` is left after the rewrite, wherever it occurred: the text
      between replacements was scanned and did not match, and a `.md` cannot
      start or complete one. */
  lemma {:induction false} ReplaceRemovesTxt(s: string)
    ensures forall i :: !MatchAt(Replace(s, ".txt", ".md"), ".txt", i)
    decreases |s|
  {
    var r := Replace(s, ".txt", ".md");
    if |s| >= 4 {
      if s[..4] == ".txt" {
        var rest := Replace(s[4..], ".txt", ".md");
        ReplaceRemovesTxt(s[4..]);
        assert r == ".md" + rest;
        forall i
          ensures !MatchAt(r, ".txt", i)
        {
          if i >= 3 && MatchAt(r, ".txt", i) {
            MatchShift(".md", rest, ".txt", i);
          }
          if 0 <= i < 3 && i + 4 <= |r| {
            assert r[i + 1] != ".txt"[1] || r[i] != '.';
          }
        }
      } else {
        var rest := Replace(s[1..], ".txt", ".md");
        ReplaceRemovesTxt(s[1..]);
        assert r == [s[0]] + rest;
        forall i
          ensures !MatchAt(r, ".txt", i)
        {
          if i >= 1 && MatchAt(r, ".txt", i) {
            MatchShift([s[0]], rest, ".txt", i);
          }
          if i == 0 && MatchAt(r, ".txt", 0) {
            assert rest[..3] == r[1..4] == "txt";
            ReplaceKeepsDotFreeHead(s[1..], "txt");
          }
        }
      }
    }
  }

  /** Text without the pattern is unchanged. */
  lemma {:induction false} ReplaceAbsent(s: string, from: string, to: string)
    requires from != [] && forall i :: !MatchAt(s, from, i)
    ensures Replace(s, from, to) == s
    decreases |s|
  {
    if |s| >= |from| {
      assert !MatchAt(s, from, 0);
      forall i
        ensures !MatchAt(s[1..], from, i)
      {
        assert !MatchAt(s, from, i + 1);
      }
      ReplaceAbsent(s[1..], from, to);
    }
  }

  /** The demo paths: `bar.txt` becomes `bar.md`, `bar.jpg` stays borrowed. */
  lemma RewriteDemo()
    ensures ReplaceTxtExtToMdExt("bar.txt") == Owned("bar.md")
    ensures ReplaceTxtExtToMdExt("bar.jpg") == Borrowed("bar.jpg")
  {
    assert "bar.txt"[3..] == ".txt";
    assert "bar.jpg"[3..] != ".txt";
  }

  /** `how_many_items`: two fixed messages lent out, and for a larger count
      an owned message that starts with the count in decimal. */
  function HowManyItems(count: usize): (r: Cow<char>)
    ensures r.Owned? <==> count >= 2
    ensures count == 0 ==> r.Contents() == "No more items"
    ensures count == 1 ==> r.Contents() == "Last item available"
    ensures count >= 2 ==>
              var t := r.Contents();
              var d := |t| - 16;
              0 < d && t[d..] == " items remaining" && AllDigits(t[..d]) && DigitsValue(t[..d]) == count
  {
    match count
    case 0 => Borrowed("No more items")
    case 1 => Borrowed("Last item available")
    case _ =>
      var digits := NatToString(count);
      NatToStringValue(count);
      var t := digits + " items remaining";
      assert t[..|digits|] == digits;
      Owned(t)
  }

  /** The formatted message starts with a digit; the fixed ones do not. */
  lemma CountMessageHead(k: usize)
    requires k >= 2
    ensures IsDigit(HowManyItems(k).Contents()[0])
  {
    assert HowManyItems(k).Contents()[0] == NatToString(k)[0];
  }

  /** The message tells the count: different counts give different text. */
  lemma HowManyItemsInjective(m: usize, n: usize)
    requires HowManyItems(m).Contents() == HowManyItems(n).Contents()
    ensures m == n
  {
    var suffix := " items remaining";
    if m >= 2 && n >= 2 {
      var a := NatToString(m);
      var b := NatToString(n);
      assert |a| == |b|;
      assert a == (a + suffix)[..|a|] && b == (b + suffix)[..|b|];
      NatToStringInjective(m, n);
    } else if m >= 2 || n >= 2 {
      assert false;
    }
  }

  /** The argument `Token::new` accepts: a `&str` or a `String`. */
  datatype Text = StrRef(s: string) | StringValue(s: string)

  datatype Token = Token(raw: Cow<char>)

  /** `Token::new(raw)`, through `Into<Cow<str>>`: a reference is borrowed, a
      `String` is owned, and the text is kept as it is. */
  function TokenNew(raw: Text): (t: Token)
    ensures t.raw.Contents() == raw.s
    ensures t.raw.Borrowed? <==> raw.StrRef?
  {
    match raw
    case StrRef(s) => Token(Borrowed(s))
    case StringValue(s) => Token(Owned(s))
  }
}
