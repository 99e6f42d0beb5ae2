/** Character classes and string helpers shared by the date parser and the
    form validators: JavaScript's `\s`, `\d` and `\w` regex classes (without
    the `u` flag), `String.prototype.trim`, `String.prototype.includes` and
    the UTF-16 length that `String.prototype.length` reports. */
module Text {

  /** JavaScript's `\s`, which is also the set `trim` strips: the WhiteSpace
      characters (TAB, VT, FF, ZWNBSP and every space separator) and the
      LineTerminator characters (LF, CR, LS, PS). */
  predicate IsSpace(c: char) {
    c == '\t' || c == '\n' || c == '\U{B}' || c == '\U{C}' || c == '\r' || c == ' ' ||
    c == '\U{A0}' || c == '\U{1680}' || ('\U{2000}' <= c <= '\U{200A}') ||
    c == '\U{2028}' || c == '\U{2029}' || c == '\U{202F}' || c == '\U{205F}' ||
    c == '\U{3000}' || c == '\U{FEFF}'
  }

  /** JavaScript's `\d`. */
  predicate IsDigit(c: char) {
    '0' <= c <= '9'
  }

  /** JavaScript's `\w`. */
  predicate IsWordChar(c: char) {
    'a' <= c <= 'z' || 'A' <= c <= 'Z' || IsDigit(c) || c == '_'
  }

  /** The three regex classes the heading pattern uses. */
  datatype CharClass = Word | Space | Digit

  predicate InClass(c: char, cls: CharClass) {
    match cls
    case Word => IsWordChar(c)
    case Space => IsSpace(c)
    case Digit => IsDigit(c)
  }

  /** Every character of `s[lo..hi]` belongs to the class. */
  predicate AllIn(s: string, lo: nat, hi: nat, cls: CharClass)
    requires lo <= hi <= |s|
  {
    forall k :: lo <= k < hi ==> InClass(s[k], cls)
  }

  /** End of the longest run of class characters starting at `i`: where a
      greedy `[class]*` starting at `i` stops. */
  function RunEnd(s: string, i: nat, cls: CharClass): (j: nat)
    requires i <= |s|
    ensures i <= j <= |s|
    ensures AllIn(s, i, j, cls)
    ensures j == |s| || !InClass(s[j], cls)
    decreases |s| - i
  {
    if i < |s| && InClass(s[i], cls) then RunEnd(s, i + 1, cls) else i
  }

  /** A run is determined by its class: any `j` that ends a run of class
      characters starting at `i` is where `RunEnd` stops. */
  lemma RunEndUnique(s: string, i: nat, j: nat, cls: CharClass)
    requires i <= j <= |s|
    requires AllIn(s, i, j, cls)
    requires j == |s| || !InClass(s[j], cls)
    ensures RunEnd(s, i, cls) == j
  {
  }

  /** Strips leading white space (the first half of `trim`). */
  function TrimStart(s: string): (r: string)
    ensures |r| <= |s| && r == s[|s| - |r|..]
    ensures forall k :: 0 <= k < |s| - |r| ==> IsSpace(s[k])
    ensures r == [] || !IsSpace(r[0])
  {
    if s != [] && IsSpace(s[0]) then TrimStart(s[1..]) else s
  }

  /** Strips trailing white space (the second half of `trim`). */
  function TrimEnd(s: string): (r: string)
    ensures |r| <= |s| && r == s[..|r|]
    ensures forall k :: |r| <= k < |s| ==> IsSpace(s[k])
    ensures r == [] || !IsSpace(r[|r| - 1])
  {
    if s != [] && IsSpace(s[|s| - 1]) then TrimEnd(s[..|s| - 1]) else s
  }

  /** `r` is the slice of `s` at index `i`, and everything of `s` before and
      after it is white space. */
  predicate PaddedSlice(s: string, r: string, i: int) {
    && OccursAt(s, r, i)
    && (forall k :: 0 <= k < i ==> IsSpace(s[k]))
    && (forall k :: i + |r| <= k < |s| ==> IsSpace(s[k]))
  }

  /** `String.prototype.trim`: the slice of `s` left once the white space at
      both ends is removed. */
  function Trim(s: string): (r: string)
    ensures exists i :: PaddedSlice(s, r, i)
    ensures r == [] || (!IsSpace(r[0]) && !IsSpace(r[|r| - 1]))
  {
    TrimmedSlice(s);
    TrimEnd(TrimStart(s))
  }

  /** What `Trim` promises, for the composition it computes. */
  lemma TrimmedSlice(s: string)
    ensures PaddedSlice(s, TrimEnd(TrimStart(s)), |s| - |TrimStart(s)|)
    ensures var r := TrimEnd(TrimStart(s)); r == [] || (!IsSpace(r[0]) && !IsSpace(r[|r| - 1]))
  {
    var t := TrimStart(s);
    var r := TrimEnd(t);
    PaddedSliceOfPrefix(s, t, r);
  }

  /** A prefix `r` of a suffix `t` of `s` is a slice of `s`; when what `t`
      leaves out in front and what `r` leaves out of `t` behind are white
      space, only white space surrounds the slice. */
  lemma PaddedSliceOfPrefix(s: string, t: string, r: string)
    requires |t| <= |s| && t == s[|s| - |t|..]
    requires forall k :: 0 <= k < |s| - |t| ==> IsSpace(s[k])
    requires |r| <= |t| && r == t[..|r|]
    requires forall k :: |r| <= k < |t| ==> IsSpace(t[k])
    ensures PaddedSlice(s, r, |s| - |t|)
    ensures r != [] ==> r[0] == t[0]
  {
    var i := |s| - |t|;
    assert s[i..i + |r|] == t[..|r|];
    forall k | i + |r| <= k < |s|
      ensures IsSpace(s[k])
    {
      assert s[k] == t[k - i];
    }
  }

  /** Trimming a string twice changes nothing more. */
  lemma TrimIdempotent(s: string)
    ensures Trim(Trim(s)) == Trim(s)
  {
    var r := Trim(s);
    if r != [] {
      assert TrimStart(r) == r;
      assert TrimEnd(r) == r;
    }
  }

  /** A string that holds only white space trims to the empty string. */
  lemma {:induction false} TrimAllSpace(s: string)
    requires forall k :: 0 <= k < |s| ==> IsSpace(s[k])
    ensures Trim(s) == []
  {
    if s != [] {
      TrimAllSpace(s[1..]);
      assert TrimStart(s) == TrimStart(s[1..]);
    }
  }

  /** White space in front of a string does not survive `TrimStart`. */
  lemma {:induction false} TrimStartSkipsPadding(pad: string, x: string)
    requires forall k :: 0 <= k < |pad| ==> IsSpace(pad[k])
    ensures TrimStart(pad + x) == TrimStart(x)
  {
    if pad != [] {
      assert (pad + x)[1..] == pad[1..] + x;
      TrimStartSkipsPadding(pad[1..], x);
    } else {
      assert pad + x == x;
    }
  }

  /** White space behind a string does not survive `TrimEnd`. */
  lemma {:induction false} TrimEndSkipsPadding(x: string, pad: string)
    requires forall k :: 0 <= k < |pad| ==> IsSpace(pad[k])
    ensures TrimEnd(x + pad) == TrimEnd(x)
  {
    if pad != [] {
      var shorter := pad[..|pad| - 1];
      assert (x + pad)[..|x + pad| - 1] == x + shorter;
      TrimEndSkipsPadding(x, shorter);
    } else {
      assert x + pad == x;
    }
  }

  /** `TrimStart` of `x + y` is `TrimStart(x) + y` once `x` has a character
      that is not white space. */
  lemma {:induction false} TrimStartOfAppend(x: string, y: string)
    requires TrimStart(x) != []
    ensures TrimStart(x + y) == TrimStart(x) + y
  {
    assert x != [];
    if IsSpace(x[0]) {
      assert (x + y)[1..] == x[1..] + y;
      TrimStartOfAppend(x[1..], y);
    }
  }

  /** White space added in front of a string and behind it, in any amounts,
      does not change what `trim` returns. */
  lemma TrimPadding(pre: string, raw: string, post: string)
    requires forall k :: 0 <= k < |pre| ==> IsSpace(pre[k])
    requires forall k :: 0 <= k < |post| ==> IsSpace(post[k])
    ensures Trim(pre + raw + post) == Trim(raw)
  {
    assert pre + raw + post == pre + (raw + post);
    TrimStartSkipsPadding(pre, raw + post);
    if TrimStart(raw) != [] {
      TrimStartOfAppend(raw, post);
      TrimEndSkipsPadding(TrimStart(raw), post);
    } else {
      assert forall k :: 0 <= k < |raw| ==> IsSpace(raw[k]);
      assert forall k :: 0 <= k < |raw + post| ==> IsSpace((raw + post)[k]);
      TrimAllSpace(raw + post);
      TrimAllSpace(raw);
    }
  }

  /** `String.prototype.length`: the number of UTF-16 code units, which is
      two for every character outside the Basic Multilingual Plane. */
  function Utf16Length(s: string): (n: nat)
    ensures |s| <= n <= 2 * |s|
  {
    if s == [] then 0 else (if s[0] as int > 0xFFFF then 2 else 1) + Utf16Length(s[1..])
  }

  /** The length of a concatenation is the sum of the lengths: code units
      are counted character by character. */
  lemma {:induction false} Utf16LengthAppend(a: string, b: string)
    ensures Utf16Length(a + b) == Utf16Length(a) + Utf16Length(b)
  {
    if a == [] {
      assert a + b == b;
    } else {
      assert (a + b)[0] == a[0];
      assert (a + b)[1..] == a[1..] + b;
      Utf16LengthAppend(a[1..], b);
    }
  }

  /** `p` occurs in `t` starting at index `i`. */
  predicate OccursAt(t: string, p: string, i: int) {
    0 <= i && i + |p| <= |t| && t[i..i + |p|] == p
  }

  /** `t.includes(p)`: `p` occurs as a contiguous slice of `t`. */
  function Contains(t: string, p: string): (b: bool)
    decreases |t|
  {
    (|p| <= |t| && t[..|p|] == p) || (t != [] && Contains(t[1..], p))
  }

  /** `Contains` finds `p` exactly when some slice of `t` equals `p`. */
  lemma {:induction false} ContainsIff(t: string, p: string)
    ensures Contains(t, p) <==> exists i :: OccursAt(t, p, i)
  {
    if |p| <= |t| && t[..|p|] == p {
      assert OccursAt(t, p, 0);
    } else if t != [] {
      ContainsIff(t[1..], p);
      if Contains(t[1..], p) {
        var i :| OccursAt(t[1..], p, i);
        assert t[1..][i..i + |p|] == t[i + 1..i + 1 + |p|];
        assert OccursAt(t, p, i + 1);
      }
      if exists i :: OccursAt(t, p, i) {
        var i :| OccursAt(t, p, i);
        assert i != 0;
        assert t[1..][i - 1..i - 1 + |p|] == t[i..i + |p|];
        assert OccursAt(t[1..], p, i - 1);
      }
    } else {
      assert !OccursAt(t, p, 0);
    }
  }
}
