/** HTTP statuses and the result wrappers every backend answers with. */
module Http {

  /** The statuses the handlers raise through HTTPException: 400, 401, 403 and 404. */
  datatype Status = BadRequest | Unauthorized | Forbidden | NotFound

  datatype Option<+T> = None | Some(value: T)

  /** What a handler produces: a response body, or the status of the exception it raised. */
  datatype Result<+T> = Ok(value: T) | Err(status: Status)
}

/** The few Python string operations the handlers rely on, over code points. */
module Text {

  /** The characters Python's `str.isspace` accepts, i.e. those `str.strip()` removes. */
  predicate IsSpace(c: char) {
    || ('\t' <= c <= '\r')
    || ('\U{001C}' <= c <= ' ')
    || c == '\U{0085}' || c == '\U{00A0}' || c == '\U{1680}'
    || ('\U{2000}' <= c <= '\U{200A}')
    || c == '\U{2028}' || c == '\U{2029}' || c == '\U{202F}' || c == '\U{205F}' || c == '\U{3000}'
  }

  /** The first index at or after `from` that is not in `ws`, or `|s|`. */
  function SpanStart(s: string, from: nat, ws: char -> bool): (n: nat)
    requires from <= |s|
    ensures from <= n <= |s|
    ensures forall k :: from <= k < n ==> ws(s[k])
    ensures n == |s| || !ws(s[n])
    decreases |s| - from
  {
    if from < |s| && ws(s[from]) then SpanStart(s, from + 1, ws) else from
  }

  /** One past the last index before `upto` that is not in `ws`, but at least `lo`. */
  function SpanEnd(s: string, lo: nat, upto: nat, ws: char -> bool): (n: nat)
    requires lo <= upto <= |s|
    ensures lo <= n <= upto
    ensures forall k :: n <= k < upto ==> ws(s[k])
    ensures n == lo || !ws(s[n - 1])
    decreases upto
  {
    if upto > lo && ws(s[upto - 1]) then SpanEnd(s, lo, upto - 1, ws) else upto
  }

  /** `r` is `s` with a margin of `i` characters of `ws` cut on the left and one of
      `|s| - i - |r|` characters of `ws` cut on the right. */
  ghost predicate StripsTo(s: string, i: int, r: string, ws: char -> bool) {
    && 0 <= i && i + |r| <= |s|
    && r == s[i..i + |r|]
    && (forall k :: 0 <= k < i ==> ws(s[k]))
    && (forall k :: i + |r| <= k < |s| ==> ws(s[k]))
  }

  /** Cutting the characters of `ws` from both ends. */
  function StripBy(s: string, ws: char -> bool): (r: string)
    ensures exists i :: StripsTo(s, i, r, ws)
    ensures r == [] || (!ws(r[0]) && !ws(r[|r| - 1]))
    ensures r == [] <==> forall k :: 0 <= k < |s| ==> ws(s[k])
  {
    var lo := SpanStart(s, 0, ws);
    var hi := SpanEnd(s, lo, |s|, ws);
    assert StripsTo(s, lo, s[lo..hi], ws);
    s[lo..hi]
  }

  /** A text with no character of `ws` at either end is kept whole. */
  lemma StripByUnspaced(s: string, ws: char -> bool)
    requires s == [] || (!ws(s[0]) && !ws(s[|s| - 1]))
    ensures StripBy(s, ws) == s
  {
    if s != [] {
      assert SpanStart(s, 0, ws) == 0;
      assert SpanEnd(s, 0, |s|, ws) == |s|;
      assert s[0..|s|] == s;
    }
  }

  /** Python's `str.strip()` without arguments. */
  function Strip(s: string): (r: string)
    ensures exists i :: StripsTo(s, i, r, IsSpace)
    ensures r == [] || (!IsSpace(r[0]) && !IsSpace(r[|r| - 1]))
    ensures r == [] <==> forall k :: 0 <= k < |s| ==> IsSpace(s[k])
  {
    StripBy(s, IsSpace)
  }

  /** A text with no whitespace at either end strips to itself. */
  lemma StripUnspaced(s: string)
    requires s == [] || (!IsSpace(s[0]) && !IsSpace(s[|s| - 1]))
    ensures Strip(s) == s
  {
    StripByUnspaced(s, IsSpace);
  }

  lemma StripIdempotent(s: string)
    ensures Strip(Strip(s)) == Strip(s)
  {
    StripUnspaced(Strip(s));
  }

  /** The capitals `str.lower` maps here: Latin A-Z and the Cyrillic block U+0400..U+042F. */
  predicate IsUpper(c: char) {
    'A' <= c <= 'Z' || '\U{0400}' <= c <= '\U{042F}'
  }

  function LowerChar(c: char): char {
    if 'A' <= c <= 'Z' || '\U{0410}' <= c <= '\U{042F}' then (c as int + 32) as char
    else if '\U{0400}' <= c <= '\U{040F}' then (c as int + 80) as char
    else c
  }

  /** The small letters of the same two scripts: Latin a-z and Cyrillic U+0430..U+045F. */
  predicate IsSmall(c: char) {
    'a' <= c <= 'z' || '\U{0430}' <= c <= '\U{045F}'
  }

  /** `str.upper()` on those small letters, written independently of `LowerChar`. */
  function UpperChar(c: char): char {
    if IsSmall(c) then
      if c >= '\U{0450}' then (c as int - 80) as char else (c as int - 32) as char
    else c
  }

  /** Lowering and upper-casing are inverse bijections between the capitals and the small
      letters, so two texts lower to the same text exactly when they agree up to case. */
  lemma LowerUpperInverse(c: char)
    ensures IsUpper(c) ==> IsSmall(LowerChar(c)) && UpperChar(LowerChar(c)) == c
    ensures IsSmall(c) ==> IsUpper(UpperChar(c)) && LowerChar(UpperChar(c)) == c
  {
  }

  /** Python's `str.lower()` on the Latin and Cyrillic capitals: no capital is left, every capital is changed, every other character is kept. */
  function Lower(s: string): (r: string)
    ensures |r| == |s|
    ensures forall i :: 0 <= i < |r| ==> !IsUpper(r[i])
    ensures forall i :: 0 <= i < |s| ==> (r[i] == s[i] <==> !IsUpper(s[i]))
    ensures forall i :: 0 <= i < |s| && IsUpper(s[i]) ==> IsSmall(r[i]) && UpperChar(r[i]) == s[i]
  {
    seq(|s|, i requires 0 <= i < |s| => LowerChar(s[i]))
  }

  /** Lower-casing twice is lower-casing once, so comparing lowered strings is an equivalence. */
  lemma LowerIdempotent(s: string)
    ensures Lower(Lower(s)) == Lower(s)
  {
    assert forall i :: 0 <= i < |s| ==> Lower(Lower(s))[i] == Lower(s)[i];
  }

  predicate StartsWith(s: string, prefix: string) {
    |prefix| <= |s| && s[..|prefix|] == prefix
  }

  /** Python's `needle in hay` on strings. */
  predicate Contains(hay: string, needle: string) {
    exists i :: 0 <= i <= |hay| && StartsWith(hay[i..], needle)
  }

  /** Python's `sep.join(parts)` for a one-character separator. */
  function Join(parts: seq<string>, sep: char): string {
    if parts == [] then []
    else if |parts| == 1 then parts[0]
    else parts[0] + [sep] + Join(parts[1..], sep)
  }

  /** Python's `s.split(sep)` for a one-character separator: the maximal pieces between separators. */
  function Split(s: string, sep: char): (parts: seq<string>)
    ensures |parts| >= 1
    ensures forall i :: 0 <= i < |parts| ==> sep !in parts[i]
    ensures Join(parts, sep) == s
    decreases |s|
  {
    if s == [] then [[]]
    else
      var rest := Split(s[1..], sep);
      if s[0] == sep then
        assert ([[]] + rest)[1..] == rest;
        [[]] + rest
      else
        var parts := [[s[0]] + rest[0]] + rest[1..];
        assert parts[1..] == rest[1..];
        assert Join(parts, sep) == [s[0]] + Join(rest, sep);
        parts
  }

  /** The first piece of a split is a prefix of the string. */
  lemma {:induction false} SplitHeadIsPrefix(s: string, sep: char)
    ensures StartsWith(s, Split(s, sep)[0])
    decreases |s|
  {
    if s != [] && s[0] != sep {
      SplitHeadIsPrefix(s[1..], sep);
    }
  }

  /** The first piece runs up to the first separator, or to the end when there is none. */
  lemma {:induction false} SplitHeadMaximal(s: string, sep: char)
    ensures |Split(s, sep)[0]| == |s| || s[|Split(s, sep)[0]|] == sep
    decreases |s|
  {
    if s != [] && s[0] != sep {
      SplitHeadMaximal(s[1..], sep);
    }
  }

  /** A string without separators splits into itself. */
  lemma {:induction false} SplitWithoutSeparator(s: string, sep: char)
    requires sep !in s
    ensures Split(s, sep) == [s]
    decreases |s|
  {
    if s != [] {
      SplitWithoutSeparator(s[1..], sep);
      assert [s[0]] + s[1..] == s;
    }
  }

  /** A separator-free word followed by a separator splits off as the first piece. */
  lemma {:induction false} SplitAfterWord(w: string, sep: char, rest: string)
    requires sep !in w
    ensures Split(w + [sep] + rest, sep) == [w] + Split(rest, sep)
    decreases |w|
  {
    var s := w + [sep] + rest;
    if w == [] {
      assert s[1..] == rest;
    } else {
      assert s[1..] == w[1..] + [sep] + rest;
      SplitAfterWord(w[1..], sep, rest);
      assert [w[0]] + w[1..] == w;
    }
  }

  /** Splitting undoes joining when no piece holds the separator: with `Split`'s own
      `Join(Split(s)) == s`, the two are inverse bijections. */
  lemma {:induction false} SplitJoin(parts: seq<string>, sep: char)
    requires |parts| >= 1
    requires forall i :: 0 <= i < |parts| ==> sep !in parts[i]
    ensures Split(Join(parts, sep), sep) == parts
    decreases |parts|
  {
    if |parts| == 1 {
      SplitWithoutSeparator(parts[0], sep);
    } else {
      SplitJoin(parts[1..], sep);
      SplitAfterWord(parts[0], sep, Join(parts[1..], sep));
      assert [parts[0]] + parts[1..] == parts;
    }
  }
}

/** The `Authorization: Bearer <token>` convention both authentication demos share. */
module Bearer {
  import opened Http
  import opened Text

  const Scheme: string := "Bearer "

  /** The credential of a header: `authorization.split(" ")[1]` once the header starts with
      "Bearer " (the second piece always exists then), None when the scheme is wrong. */
  function Credential(authorization: string): (r: Option<string>)
    ensures r.Some? <==> StartsWith(authorization, Scheme)
    ensures r.Some? ==> ' ' !in r.value && StartsWith(authorization[|Scheme|..], r.value)
    ensures r.Some? ==> var n := |Scheme| + |r.value|; n == |authorization| || authorization[n] == ' '
  {
    if StartsWith(authorization, Scheme) then
      var rest := authorization[|Scheme|..];
      assert authorization == "Bearer" + [' '] + rest;
      SplitAfterWord("Bearer", ' ', rest);
      SplitHeadIsPrefix(rest, ' ');
      SplitHeadMaximal(rest, ' ');
      Some(Split(authorization, ' ')[1])
    else None
  }

  /** A header built from a space-free token gives that token back. */
  lemma CredentialRoundTrip(token: string)
    requires ' ' !in token
    ensures Credential(Scheme + token) == Some(token)
  {
    var h := Scheme + token;
    assert h[..|Scheme|] == Scheme;
    assert h[|Scheme|..] == token;
    assert h == "Bearer" + [' '] + token;
    SplitAfterWord("Bearer", ' ', token);
    SplitWithoutSeparator(token, ' ');
  }
}

/** Sequence operations standing for Python list comprehensions, `list.remove` and scans. */
module Seqs {
  import opened Http

  /** `[x for x in s if p(x)]`. */
  function Filter<T>(s: seq<T>, p: T -> bool): (r: seq<T>)
    ensures |r| <= |s|
    ensures forall i :: 0 <= i < |r| ==> r[i] in s && p(r[i])
    ensures forall i :: 0 <= i < |s| && p(s[i]) ==> s[i] in r
    ensures IsSubsequence(r, s)
  {
    if s == [] then []
    else if p(s[0]) then [s[0]] + Filter(s[1..], p)
    else Filter(s[1..], p)
  }

  /** `r` can be obtained from `s` by deleting elements: it keeps their relative order. */
  ghost predicate IsSubsequence<T>(r: seq<T>, s: seq<T>)
    decreases |s|
  {
    || r == []
    || (s != [] && ((r[0] == s[0] && IsSubsequence(r[1..], s[1..])) || IsSubsequence(r, s[1..])))
  }

  lemma {:induction false} FilterIdempotent<T>(s: seq<T>, p: T -> bool)
    ensures Filter(Filter(s, p), p) == Filter(s, p)
  {
    if s != [] {
      FilterIdempotent(s[1..], p);
      if p(s[0]) {
        assert ([s[0]] + Filter(s[1..], p))[1..] == Filter(s[1..], p);
      }
    }
  }

  /** A filter keeps the whole sequence exactly when every element passes. */
  lemma {:induction false} FilterKeepsAll<T>(s: seq<T>, p: T -> bool)
    ensures |Filter(s, p)| == |s| <==> forall i :: 0 <= i < |s| ==> p(s[i])
  {
    if s != [] {
      FilterKeepsAll(s[1..], p);
      assert forall i :: 1 <= i < |s| ==> s[i] == s[1..][i - 1];
    }
  }

  lemma {:induction false} FilterAppend<T>(s: seq<T>, t: seq<T>, p: T -> bool)
    ensures Filter(s + t, p) == Filter(s, p) + Filter(t, p)
  {
    if s == [] {
      assert s + t == t;
    } else {
      assert (s + t)[1..] == s[1..] + t;
      FilterAppend(s[1..], t, p);
    }
  }

  /** The index of the first occurrence of `k`: what a `for` loop that returns on the first
      match finds. */
  function IndexOf<K(==)>(keys: seq<K>, k: K): (r: Option<nat>)
    ensures r.None? <==> k !in keys
    ensures r.Some? ==> r.value < |keys| && keys[r.value] == k
    ensures r.Some? ==> forall j :: 0 <= j < r.value ==> keys[j] != k
  {
    if keys == [] then None
    else if keys[0] == k then Some(0)
    else match IndexOf(keys[1..], k)
      case None => None
      case Some(i) => Some(i + 1)
  }

  /** `s` without its element at `i`, the rest in order. */
  function RemoveAt<T>(s: seq<T>, i: nat): (r: seq<T>)
    requires i < |s|
    ensures |r| == |s| - 1
    ensures multiset(r) == multiset(s) - multiset{s[i]}
    ensures forall j :: 0 <= j < |r| ==> r[j] == (if j < i then s[j] else s[j + 1])
  {
    assert s == s[..i] + [s[i]] + s[i + 1..];
    s[..i] + s[i + 1..]
  }

  lemma {:induction false} SubsequenceOfItself<T>(s: seq<T>)
    ensures IsSubsequence(s, s)
  {
    if s != [] {
      SubsequenceOfItself(s[1..]);
    }
  }

  lemma {:induction false} RemoveAtIsSubsequence<T>(s: seq<T>, i: nat)
    requires i < |s|
    ensures IsSubsequence(RemoveAt(s, i), s)
    decreases i
  {
    var r := s[..i] + s[i + 1..];
    if i == 0 {
      assert r == s[1..];
      SubsequenceOfItself(s[1..]);
    } else {
      RemoveAtIsSubsequence(s[1..], i - 1);
      assert r[0] == s[0];
      assert r[1..] == s[1..][..i - 1] + s[1..][i..];
    }
  }

  /** Removing one element lowers the count of a property by one if the element has it. */
  lemma FilterRemoveAt<T>(s: seq<T>, i: nat, p: T -> bool)
    requires i < |s|
    ensures |Filter(RemoveAt(s, i), p)| == |Filter(s, p)| - (if p(s[i]) then 1 else 0)
  {
    assert s == s[..i] + ([s[i]] + s[i + 1..]);
    FilterAppend(s[..i], [s[i]] + s[i + 1..], p);
    FilterAppend([s[i]], s[i + 1..], p);
    FilterAppend(s[..i], s[i + 1..], p);
  }
}

/** A stable insertion sort by an integer key, ascending or descending, as Python's
    `list.sort(key=..., reverse=...)` and SQL's `ORDER BY` are used by the backends. */
module Sorting {
  import opened Seqs

  /** `a` may stand before `b` in the chosen direction. */
  predicate InOrder<T>(key: T -> int, desc: bool, a: T, b: T) {
    if desc then key(a) >= key(b) else key(a) <= key(b)
  }

  ghost predicate Sorted<T>(s: seq<T>, key: T -> int, desc: bool) {
    forall i, j :: 0 <= i < j < |s| ==> InOrder(key, desc, s[i], s[j])
  }

  function HasKey<T>(key: T -> int, k: int): T -> bool {
    x => key(x) == k
  }

  /** Puts `x` before the first element it may precede; `x` came earlier in the input than all
      of `l`, so it goes ahead of the elements with its own key. */
  function Insert<T>(x: T, l: seq<T>, key: T -> int, desc: bool): (r: seq<T>)
    ensures multiset(r) == multiset(l) + multiset{x}
    ensures forall i :: 0 <= i < |r| ==> r[i] == x || r[i] in l
  {
    if l == [] then [x]
    else if InOrder(key, desc, x, l[0]) then
      [x] + l
    else
      assert l == [l[0]] + l[1..];
      [l[0]] + Insert(x, l[1..], key, desc)
  }

  /** Insertion keeps a sorted sequence sorted. */
  lemma {:induction false} InsertSorted<T>(x: T, l: seq<T>, key: T -> int, desc: bool)
    requires Sorted(l, key, desc)
    ensures Sorted(Insert(x, l, key, desc), key, desc)
  {
    if l != [] && !InOrder(key, desc, x, l[0]) {
      var rest := Insert(x, l[1..], key, desc);
      InsertSorted(x, l[1..], key, desc);
      forall j | 0 <= j < |rest| ensures InOrder(key, desc, l[0], rest[j]) {
        if rest[j] != x {
          var m :| 0 <= m < |l[1..]| && l[1..][m] == rest[j];
          assert l[m + 1] == rest[j];
        }
      }
      var r := [l[0]] + rest;
      forall i, j | 0 <= i < j < |r| ensures InOrder(key, desc, r[i], r[j]) {
        if i == 0 {
          assert r[j] == rest[j - 1];
        } else {
          assert r[i] == rest[i - 1] && r[j] == rest[j - 1];
        }
      }
    } else if l != [] {
      PrecedesAll(x, l, key, desc);
      var r := [x] + l;
      forall i, j | 0 <= i < j < |r| ensures InOrder(key, desc, r[i], r[j]) {
        if i > 0 {
          assert r[i] == l[i - 1] && r[j] == l[j - 1];
        } else {
          assert r[j] in l;
        }
      }
    }
  }

  /** In a sorted sequence, whatever may precede the head may precede every element. */
  lemma PrecedesAll<T>(x: T, l: seq<T>, key: T -> int, desc: bool)
    requires l != [] && Sorted(l, key, desc) && InOrder(key, desc, x, l[0])
    ensures forall y :: y in l ==> InOrder(key, desc, x, y)
  {
    forall y | y in l ensures InOrder(key, desc, x, y) {
      var j :| 0 <= j < |l| && l[j] == y;
      if j > 0 { assert InOrder(key, desc, l[0], l[j]); }
    }
  }

  function SortBy<T>(s: seq<T>, key: T -> int, desc: bool): (r: seq<T>)
    ensures multiset(r) == multiset(s)
    ensures Sorted(r, key, desc)
  {
    if s == [] then []
    else
      assert s == [s[0]] + s[1..];
      InsertSorted(s[0], SortBy(s[1..], key, desc), key, desc);
      Insert(s[0], SortBy(s[1..], key, desc), key, desc)
  }

  /** Filtering a sorted sequence commutes with inserting into it. */
  lemma {:induction false} FilterInsert<T>(x: T, l: seq<T>, key: T -> int, desc: bool, p: T -> bool)
    requires Sorted(l, key, desc)
    ensures Filter(Insert(x, l, key, desc), p)
         == if p(x) then Insert(x, Filter(l, p), key, desc) else Filter(l, p)
  {
    if l == [] {
    } else if InOrder(key, desc, x, l[0]) {
      assert Insert(x, l, key, desc) == [x] + l;
      assert ([x] + l)[1..] == l;
      if p(x) {
        var f := Filter(l, p);
        if f != [] {
          PrecedesAll(x, l, key, desc);
          assert f[0] in l;
        }
      }
    } else {
      var l' := l[1..];
      assert Sorted(l', key, desc);
      FilterInsert(x, l', key, desc, p);
      var ins := Insert(x, l', key, desc);
      assert Insert(x, l, key, desc) == [l[0]] + ins;
      assert ([l[0]] + ins)[1..] == ins;
      if p(l[0]) {
        assert Filter(l, p) == [l[0]] + Filter(l', p);
        assert ([l[0]] + Filter(l', p))[1..] == Filter(l', p);
      } else {
        assert Filter(l, p) == Filter(l', p);
      }
    }
  }

  /** Sorting commutes with filtering: sorting the selected elements lists them exactly as
      they stand in the sorted whole. */
  lemma {:induction false} SortFilter<T>(s: seq<T>, key: T -> int, desc: bool, p: T -> bool)
    ensures SortBy(Filter(s, p), key, desc) == Filter(SortBy(s, key, desc), p)
  {
    if s != [] {
      SortFilter(s[1..], key, desc, p);
      FilterInsert(s[0], SortBy(s[1..], key, desc), key, desc, p);
      if p(s[0]) {
        assert ([s[0]] + Filter(s[1..], p))[1..] == Filter(s[1..], p);
      }
    }
  }

  /** Elements that all share one key are left in place. */
  lemma {:induction false} SortSameKey<T>(s: seq<T>, key: T -> int, desc: bool, k: int)
    requires forall i :: 0 <= i < |s| ==> key(s[i]) == k
    ensures SortBy(s, key, desc) == s
  {
    if s != [] {
      var t := s[1..];
      SortSameKey(t, key, desc, k);
      assert SortBy(s, key, desc) == Insert(s[0], t, key, desc);
      if t != [] {
        assert key(s[0]) == k && key(t[0]) == k;
        assert InOrder(key, desc, s[0], t[0]);
      }
      assert [s[0]] + t == s;
    }
  }

  /** Stability: for every key, the elements with that key come out in their input order. */
  lemma Stable<T>(s: seq<T>, key: T -> int, desc: bool, k: int)
    ensures Filter(SortBy(s, key, desc), HasKey(key, k)) == Filter(s, HasKey(key, k))
  {
    var f := Filter(s, HasKey(key, k));
    SortFilter(s, key, desc, HasKey(key, k));
    forall i | 0 <= i < |f| ensures key(f[i]) == k {
      assert f[i] in f;
    }
    SortSameKey(f, key, desc, k);
  }
}
