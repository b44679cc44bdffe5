/** The product catalogue filter of the eighth backend: a constant product list and a pure
    pipeline of filters and an optional stable sort, plus the sorted list of categories. */
module ProductCatalog {
  import opened Http
  import opened Text
  import opened Seqs
  import opened Sorting

  datatype Product = Product(id: int, name: string, category: string, price: int)

  /** `PRODUCTS_DB`; being a constant, no request can change it. */
  const ProductsDb: seq<Product> := [
    Product(1, "Смартфон Alpha", "Электроника", 550),
    Product(2, "Ноутбук ProBook", "Электроника", 1200),
    Product(3, "Беспроводные наушники SoundWave", "Электроника", 150),
    Product(4, "Футболка 'Код'", "Одежда", 25),
    Product(5, "Джинсы 'Классика'", "Одежда", 75),
    Product(6, "Книга 'Паттерны проектирования'", "Книги", 40),
    Product(7, "Книга 'Чистый код'", "Книги", 35),
    Product(8, "Умные часы Chronos", "Электроника", 300),
    Product(9, "Худи 'Логотип'", "Одежда", 60)
  ]

  function Price(p: Product): int {
    p.price
  }

  // ---------------------------------------------------------------- parsing a price bound

  predicate IsDigit(c: char) {
    '0' <= c <= '9'
  }

  predicate AllDigits(s: string) {
    forall i :: 0 <= i < |s| ==> IsDigit(s[i])
  }

  /** The value of a string of decimal digits, most significant first. */
  function DigitsValue(s: string): nat
    requires AllDigits(s)
  {
    if s == [] then 0 else DigitsValue(s[..|s| - 1]) * 10 + (s[|s| - 1] as int - '0' as int)
  }

  function Pow10(n: nat): (r: nat)
    ensures r >= 1
  {
    if n == 0 then 1 else 10 * Pow10(n - 1)
  }

  /** The unsigned decimal forms `float` accepts: digits, optionally with a point and a
      fraction, not the point alone. */
  function ParseUnsigned(t: string): (r: Option<real>)
    ensures r.Some? ==> r.value >= 0.0
    ensures r.Some? ==> t != [] && t != "." && forall i :: 0 <= i < |t| ==> IsDigit(t[i]) || t[i] == '.'
    ensures r.Some? ==> forall i, j :: 0 <= i < j < |t| && t[i] == '.' ==> t[j] != '.'
    ensures t != [] && AllDigits(t) ==> r == Some(DigitsValue(t) as real)
  {
    match IndexOf(t, '.')
    case None =>
      if t != [] && AllDigits(t) then Some(DigitsValue(t) as real) else None
    case Some(i) =>
      var whole, frac := t[..i], t[i + 1..];
      if (whole != [] || frac != []) && AllDigits(whole) && AllDigits(frac) then
        PointShape(t, i);
        Some(PointReal(whole, frac))
      else None
  }

  /** The value of `whole.frac`: the whole digits plus the fraction digits over 10 to their count. */
  function PointReal(whole: string, frac: string): (v: real)
    requires AllDigits(whole) && AllDigits(frac)
    ensures v >= 0.0
  {
    DigitsValue(whole) as real + DigitsValue(frac) as real / Pow10(|frac|) as real
  }

  /** Digits, one point at `i`, digits: every character is a digit or that point. */
  lemma PointShape(t: string, i: nat)
    requires i < |t| && t[i] == '.'
    requires AllDigits(t[..i]) && AllDigits(t[i + 1..])
    ensures forall j :: 0 <= j < |t| ==> IsDigit(t[j]) || t[j] == '.'
    ensures forall j, k :: 0 <= j < k < |t| && t[j] == '.' ==> t[k] != '.'
  {
    assert forall j :: 0 <= j < i ==> t[j] == t[..i][j];
    assert forall j :: i < j < |t| ==> t[j] == t[i + 1..][j - i - 1];
  }

  /** The characters `float` cuts from the ends of its argument. CPython first turns every
      non-ASCII whitespace character into a space and then strips ASCII whitespace, so the
      separators U+001C..U+001F, which `str.isspace` accepts, are kept and spoil the number. */
  predicate FloatSpace(c: char) {
    IsSpace(c) && !('\U{001C}' <= c <= '\U{001F}')
  }

  /** `float(s)` on decimal text: surrounding whitespace, an optional sign, then an unsigned
      decimal; None stands for the ValueError. */
  function ParseNumber(s: string): (r: Option<real>)
    ensures r.Some? ==> StripBy(s, FloatSpace) != []
    ensures r.Some? <==> SignedDecimal(StripBy(s, FloatSpace))
    ensures ParseUnsigned(StripBy(s, FloatSpace)).Some? ==> r == ParseUnsigned(StripBy(s, FloatSpace))
    ensures r.Some? && r.value < 0.0 ==> StripBy(s, FloatSpace)[0] == '-'
  {
    ParseSignedText(StripBy(s, FloatSpace))
  }

  /** The text `float` accepts once stripped: an unsigned decimal, or a sign followed by one. */
  predicate SignedDecimal(t: string) {
    ParseUnsigned(t).Some? || (t != [] && (t[0] == '-' || t[0] == '+') && ParseUnsigned(t[1..]).Some?)
  }

  /** The stripped text: an optional sign, then an unsigned decimal. */
  function ParseSignedText(t: string): (r: Option<real>)
    ensures r.Some? ==> t != []
    ensures r.Some? <==> SignedDecimal(t)
    ensures ParseUnsigned(t).Some? ==> r == ParseUnsigned(t)
    ensures r.Some? && r.value < 0.0 ==> t[0] == '-'
  {
    if t != [] && (t[0] == '-' || t[0] == '+') then
      match ParseUnsigned(t[1..])
      case None => None
      case Some(v) => Some(if t[0] == '-' then -v else v)
    else ParseUnsigned(t)
  }

  function DigitChar(d: nat): char
    requires d < 10
  {
    ('0' as int + d) as char
  }

  /** The decimal spelling of a natural number, as `str(n)` gives it. */
  function DecimalString(n: nat): (s: string)
    ensures s != [] && AllDigits(s)
  {
    if n < 10 then [DigitChar(n)] else DecimalString(n / 10) + [DigitChar(n % 10)]
  }

  lemma {:induction false} DecimalStringValue(n: nat)
    ensures DigitsValue(DecimalString(n)) == n
  {
    var s := DecimalString(n);
    if n >= 10 {
      DecimalStringValue(n / 10);
      assert s[..|s| - 1] == DecimalString(n / 10);
    }
  }

  /** Parsing reads back what `str` writes: a whole-number bound such as "150" means 150. */
  lemma ParseDecimalString(n: nat)
    ensures ParseNumber(DecimalString(n)) == Some(n as real)
  {
    var s := DecimalString(n);
    assert forall i :: 0 <= i < |s| ==> !IsSpace(s[i]) && s[i] != '.';
    StripByUnspaced(s, FloatSpace);
    assert '.' !in s;
    DecimalStringValue(n);
  }

  /** A bound with a fraction reads as that fraction: "19.99" is 19.99. */
  lemma FractionalBound()
    ensures ParseNumber("19.99") == Some(19.99)
  {
    var t := "19.99";
    StripByUnspaced(t, FloatSpace);
    PointValue(t, 2);
    assert t[..2] == "19" && t[3..] == "99";
    assert DigitsValue("19") == 19 && DigitsValue("99") == 99 && Pow10(2) == 100;
  }

  /** Either side of the point may be empty, but not both: "5." is 5.0 and ".5" is 0.5. */
  lemma BarePointBounds()
    ensures ParseNumber("5.") == Some(5.0)
    ensures ParseNumber(".5") == Some(0.5)
  {
    StripByUnspaced("5.", FloatSpace);
    StripByUnspaced(".5", FloatSpace);
    PointValue("5.", 1);
    PointValue(".5", 0);
    assert "5."[..1] == "5" && "5."[2..] == [];
    assert ".5"[..0] == [] && ".5"[1..] == "5";
    assert DigitsValue("5") == 5 && Pow10(1) == 10;
  }

  /** A second point spoils the number: "1.2.3" is refused. */
  lemma TwoPointsBound()
    ensures ParseNumber("1.2.3") == None
  {
    var t := "1.2.3";
    StripByUnspaced(t, FloatSpace);
    assert t[1] == '.' && t[3] == '.';
  }

  /** Digits, a point at `i`, digits: the whole part plus the fraction scaled by its length. */
  lemma PointValue(t: string, i: nat)
    requires i < |t| && t[i] == '.' && |t| > 1
    requires AllDigits(t[..i]) && AllDigits(t[i + 1..])
    ensures ParseUnsigned(t) == Some(PointReal(t[..i], t[i + 1..]))
  {
    assert forall j :: 0 <= j < i ==> t[j] == t[..i][j];
    assert IndexOf(t, '.') == Some(i);
  }

  /** A sign in front of an unsigned decimal negates it or keeps it: "-5" is -5.0, "+5" is 5.0. */
  lemma SignedParse(sign: char, t: string)
    requires sign == '-' || sign == '+'
    requires ParseUnsigned(t).Some?
    ensures ParseNumber([sign] + t) == Some(if sign == '-' then -ParseUnsigned(t).value else ParseUnsigned(t).value)
  {
    SignedStrip(sign, t);
    ParseSigned(sign, t);
  }

  lemma SignedStrip(sign: char, t: string)
    requires sign == '-' || sign == '+'
    requires ParseUnsigned(t).Some?
    ensures StripBy([sign] + t, FloatSpace) == [sign] + t
  {
    var u := [sign] + t;
    assert IsDigit(t[|t| - 1]) || t[|t| - 1] == '.';
    assert u[|u| - 1] == t[|t| - 1];
    StripByUnspaced(u, FloatSpace);
  }

  lemma ParseSigned(sign: char, t: string)
    requires sign == '-' || sign == '+'
    requires StripBy([sign] + t, FloatSpace) == [sign] + t
    ensures ParseNumber([sign] + t) == match ParseUnsigned(t)
      case None => None
      case Some(v) => Some(if sign == '-' then -v else v)
  {
    var u := [sign] + t;
    assert u[0] == sign && u[1..] == t;
    assert ParseNumber(u) == ParseSignedText(u);
  }

  // ---------------------------------------------------------------- the filter pipeline

  /** Python's truthiness of an optional query parameter: given and not empty. */
  predicate Present(o: Option<string>) {
    o.Some? && o.value != ""
  }

  function InCategory(category: string): Product -> bool {
    (p: Product) => Lower(p.category) == Lower(category)
  }

  function NameContains(search: string): Product -> bool {
    (p: Product) => Contains(Lower(p.name), Lower(search))
  }

  function AtLeast(lo: real): Product -> bool {
    (p: Product) => p.price as real >= lo
  }

  function AtMost(hi: real): Product -> bool {
    (p: Product) => p.price as real <= hi
  }

  /** The category step: no filter when the parameter is missing, empty or "all" in any case. */
  function ByCategory(ps: seq<Product>, category: Option<string>): seq<Product> {
    if Present(category) && Lower(category.value) != "all" then Filter(ps, InCategory(category.value)) else ps
  }

  function BySearch(ps: seq<Product>, search: Option<string>): seq<Product> {
    if Present(search) then Filter(ps, NameContains(search.value)) else ps
  }

  /** Whether the lower bound aborts the `try` block: given but not a number. */
  predicate MinFails(minPrice: Option<string>) {
    Present(minPrice) && ParseNumber(minPrice.value).None?
  }

  /** The `try` block: a bound that fails to parse raises ValueError, which skips the rest of
      the block, so a bad lower bound also drops a good upper bound, while a good lower bound
      stays applied when the upper one is bad. */
  function ByPrice(ps: seq<Product>, minPrice: Option<string>, maxPrice: Option<string>): seq<Product> {
    if MinFails(minPrice) then ps
    else
      var afterMin := if Present(minPrice) then Filter(ps, AtLeast(ParseNumber(minPrice.value).value)) else ps;
      if Present(maxPrice) && ParseNumber(maxPrice.value).Some?
      then Filter(afterMin, AtMost(ParseNumber(maxPrice.value).value))
      else afterMin
  }

  /** The products filter_products keeps, in database order. */
  function Selected(search: Option<string>, category: Option<string>, minPrice: Option<string>,
                    maxPrice: Option<string>): seq<Product>
  {
    ByPrice(BySearch(ByCategory(ProductsDb, category), search), minPrice, maxPrice)
  }

  /** The price test: each bound that parses is inclusive, and a lower bound that fails to
      parse disables both. */
  predicate PriceAdmits(p: Product, minPrice: Option<string>, maxPrice: Option<string>) {
    && (Present(minPrice) && !MinFails(minPrice) ==> p.price as real >= ParseNumber(minPrice.value).value)
    && (!MinFails(minPrice) && Present(maxPrice) && ParseNumber(maxPrice.value).Some? ==>
          p.price as real <= ParseNumber(maxPrice.value).value)
  }

  /** The test one product must pass, step by step. */
  predicate Admits(p: Product, search: Option<string>, category: Option<string>,
                   minPrice: Option<string>, maxPrice: Option<string>)
  {
    && (Present(category) && Lower(category.value) != "all" ==> Lower(p.category) == Lower(category.value))
    && (Present(search) ==> Contains(Lower(p.name), Lower(search.value)))
    && PriceAdmits(p, minPrice, maxPrice)
  }

  lemma {:induction false} SubsequenceTransitive<T>(a: seq<T>, b: seq<T>, c: seq<T>)
    requires IsSubsequence(a, b) && IsSubsequence(b, c)
    ensures IsSubsequence(a, c)
    decreases |c|
  {
    if a != [] {
      if IsSubsequence(b, c[1..]) {
        SubsequenceTransitive(a, b, c[1..]);
      } else if a[0] == b[0] && IsSubsequence(a[1..], b[1..]) {
        SubsequenceTransitive(a[1..], b[1..], c[1..]);
      } else {
        SubsequenceTransitive(a, b[1..], c[1..]);
      }
    }
  }

  /** Each step keeps exactly the products passing its test, in order. */
  lemma CategoryStep(ps: seq<Product>, category: Option<string>)
    ensures IsSubsequence(ByCategory(ps, category), ps)
    ensures forall p :: p in ByCategory(ps, category) <==>
      p in ps && (Present(category) && Lower(category.value) != "all" ==> Lower(p.category) == Lower(category.value))
  {
    SubsequenceOfItself(ps);
    if Present(category) {
      MembershipOfFilter(ps, InCategory(category.value));
    }
  }

  lemma SearchStep(ps: seq<Product>, search: Option<string>)
    ensures IsSubsequence(BySearch(ps, search), ps)
    ensures forall p :: p in BySearch(ps, search) <==>
      p in ps && (Present(search) ==> Contains(Lower(p.name), Lower(search.value)))
  {
    SubsequenceOfItself(ps);
    if Present(search) {
      MembershipOfFilter(ps, NameContains(search.value));
    }
  }

  lemma PriceStep(ps: seq<Product>, minPrice: Option<string>, maxPrice: Option<string>)
    ensures IsSubsequence(ByPrice(ps, minPrice, maxPrice), ps)
    ensures forall p :: p in ByPrice(ps, minPrice, maxPrice) <==> p in ps && PriceAdmits(p, minPrice, maxPrice)
  {
    SubsequenceOfItself(ps);
    if !MinFails(minPrice) {
      var afterMin := if Present(minPrice) then Filter(ps, AtLeast(ParseNumber(minPrice.value).value)) else ps;
      if Present(minPrice) {
        MembershipOfFilter(ps, AtLeast(ParseNumber(minPrice.value).value));
      }
      if Present(maxPrice) && ParseNumber(maxPrice.value).Some? {
        var hi := ParseNumber(maxPrice.value).value;
        MembershipOfFilter(afterMin, AtMost(hi));
        SubsequenceTransitive(Filter(afterMin, AtMost(hi)), afterMin, ps);
      }
    }
  }

  lemma MembershipOfFilter(ps: seq<Product>, f: Product -> bool)
    ensures forall p :: p in Filter(ps, f) <==> p in ps && f(p)
  {
    var r := Filter(ps, f);
    forall p | p in r ensures p in ps && f(p) {
      var j :| 0 <= j < |r| && r[j] == p;
    }
    forall p | p in ps && f(p) ensures p in r {
      var j :| 0 <= j < |ps| && ps[j] == p;
    }
  }

  /** The three steps over any list keep, in its order, exactly the products passing every
      test. */
  lemma PipelineKeeps(ps: seq<Product>, search: Option<string>, category: Option<string>,
                      minPrice: Option<string>, maxPrice: Option<string>)
    ensures IsSubsequence(ByPrice(BySearch(ByCategory(ps, category), search), minPrice, maxPrice), ps)
    ensures forall p :: p in ByPrice(BySearch(ByCategory(ps, category), search), minPrice, maxPrice) <==>
      p in ps && Admits(p, search, category, minPrice, maxPrice)
  {
    var a := ByCategory(ps, category);
    var b := BySearch(a, search);
    CategoryStep(ps, category);
    SearchStep(a, search);
    PriceStep(b, minPrice, maxPrice);
    SubsequenceTransitive(b, a, ps);
    SubsequenceTransitive(ByPrice(b, minPrice, maxPrice), b, ps);
  }

  /** Without sorting, the answer is the database with the failing products left out: drawn
      only from the database, in its order, and holding each product that passes every test. */
  lemma SelectedIsFilteredDb(search: Option<string>, category: Option<string>,
                             minPrice: Option<string>, maxPrice: Option<string>)
    ensures IsSubsequence(Selected(search, category, minPrice, maxPrice), ProductsDb)
    ensures forall p :: p in Selected(search, category, minPrice, maxPrice) <==>
      p in ProductsDb && Admits(p, search, category, minPrice, maxPrice)
  {
    PipelineKeeps(ProductsDb, search, category, minPrice, maxPrice);
  }

  /** filter_products: "price_asc" and "price_desc" sort stably by price; any other value
      keeps database order. */
  function FilterProducts(search: Option<string>, category: Option<string>, minPrice: Option<string>,
                          maxPrice: Option<string>, sort: Option<string>): (r: seq<Product>)
    ensures sort == Some("price_asc") ==> Sorted(r, Price, false)
    ensures sort == Some("price_desc") ==> Sorted(r, Price, true)
    ensures multiset(r) == multiset(Selected(search, category, minPrice, maxPrice))
    ensures sort != Some("price_asc") && sort != Some("price_desc") ==> r == Selected(search, category, minPrice, maxPrice)
    ensures forall k :: Filter(r, HasKey(Price, k)) == Filter(Selected(search, category, minPrice, maxPrice), HasKey(Price, k))
  {
    var s := Selected(search, category, minPrice, maxPrice);
    if sort == Some("price_asc") || sort == Some("price_desc") then
      var r := SortBy(s, Price, sort == Some("price_desc"));
      forall k ensures Filter(r, HasKey(Price, k)) == Filter(s, HasKey(Price, k)) {
        Stable(s, Price, sort == Some("price_desc"), k);
      }
      r
    else s
  }

  /** Bounds are inclusive: a product priced exactly at a whole-number bound passes it. */
  lemma InclusiveBounds(p: Product)
    requires p.price >= 0
    ensures Admits(p, None, None, Some(DecimalString(p.price)), Some(DecimalString(p.price)))
  {
    ParseDecimalString(p.price);
  }

  /** A bad upper bound leaves a good lower bound in force. */
  lemma BadMaxKeepsMin(ps: seq<Product>, minPrice: string, maxPrice: string)
    requires minPrice != "" && ParseNumber(minPrice).Some?
    requires maxPrice != "" && ParseNumber(maxPrice).None?
    ensures ByPrice(ps, Some(minPrice), Some(maxPrice)) == Filter(ps, AtLeast(ParseNumber(minPrice).value))
  {
  }

  /** A bad lower bound abandons the block before the upper bound is read: from "abc" to any
      upper bound, every product stays. */
  lemma BadMinDropsMax(ps: seq<Product>, maxPrice: Option<string>)
    ensures ByPrice(ps, Some("abc"), maxPrice) == ps
  {
    NotANumber();
  }

  /** `float` keeps a leading file separator U+001C that `str.strip` would remove: the bound
      "\x1c5" raises, although its stripped text is "5". */
  lemma FileSeparatorSpoilsNumber()
    ensures Strip("\U{001C}5") == "5"
    ensures ParseNumber("\U{001C}5") == None
  {
    var s := "\U{001C}5";
    assert SpanStart(s, 0, IsSpace) == 1;
    assert SpanEnd(s, 1, 2, IsSpace) == 2;
    assert s[1..2] == "5";
    StripByUnspaced(s, FloatSpace);
    assert IndexOf(s, '.') == None;
    assert !IsDigit(s[0]);
  }

  lemma NotANumber()
    ensures ParseNumber("abc") == None
  {
    var s := "abc";
    assert !IsSpace(s[0]) && !IsSpace(s[2]);
    StripByUnspaced(s, FloatSpace);
    assert IndexOf(s, '.') == None;
    assert !IsDigit(s[0]);
  }

  // ---------------------------------------------------------------- categories

  /** Python's `<` on strings: code-point lexicographic order. */
  predicate StrLess(a: string, b: string) {
    if a == [] then b != []
    else if b == [] then false
    else if a[0] != b[0] then a[0] < b[0]
    else StrLess(a[1..], b[1..])
  }

  lemma {:induction false} StrLessIrreflexive(a: string)
    ensures !StrLess(a, a)
  {
    if a != [] {
      StrLessIrreflexive(a[1..]);
    }
  }

  lemma {:induction false} StrLessTransitive(a: string, b: string, c: string)
    requires StrLess(a, b) && StrLess(b, c)
    ensures StrLess(a, c)
  {
    if a != [] && b != [] && c != [] && a[0] == b[0] && b[0] == c[0] {
      StrLessTransitive(a[1..], b[1..], c[1..]);
    }
  }

  lemma {:induction false} StrLessTotal(a: string, b: string)
    requires a != b
    ensures StrLess(a, b) || StrLess(b, a)
  {
    if a != [] && b != [] && a[0] == b[0] {
      assert a == [a[0]] + a[1..] && b == [b[0]] + b[1..];
      StrLessTotal(a[1..], b[1..]);
    }
  }

  ghost predicate StrictlySorted(s: seq<string>) {
    forall i, j :: 0 <= i < j < |s| ==> StrLess(s[i], s[j])
  }

  /** Adds `x` to a strictly sorted list unless it is already there. */
  function InsertUnique(x: string, r: seq<string>): (out: seq<string>)
    requires StrictlySorted(r)
    ensures StrictlySorted(out)
    ensures forall y :: y in out <==> y == x || y in r
  {
    if r == [] then [x]
    else if x == r[0] then r
    else if StrLess(x, r[0]) then
      forall j | 0 <= j < |r| ensures StrLess(x, r[j]) {
        if j > 0 { StrLessTransitive(x, r[0], r[j]); }
      }
      [x] + r
    else
      StrLessTotal(x, r[0]);
      var rest := InsertUnique(x, r[1..]);
      assert forall j :: 0 <= j < |rest| ==> StrLess(r[0], rest[j]) by {
        forall j | 0 <= j < |rest| ensures StrLess(r[0], rest[j]) {
          assert rest[j] in rest;
          if rest[j] != x {
            var m :| 0 <= m < |r[1..]| && r[1..][m] == rest[j];
            assert r[m + 1] == rest[j];
          }
        }
      }
      assert r == [r[0]] + r[1..];
      [r[0]] + rest
  }

  /** `sorted(set(s))`. */
  function SortedUnique(s: seq<string>): (r: seq<string>)
    ensures StrictlySorted(r)
    ensures forall y :: y in r <==> y in s
  {
    if s == [] then [] else InsertUnique(s[0], SortedUnique(s[1..]))
  }

  /** A strictly sorted list holds no value twice. */
  lemma StrictlySortedDistinct(s: seq<string>)
    requires StrictlySorted(s)
    ensures forall i, j :: 0 <= i < j < |s| ==> s[i] != s[j]
  {
    forall i, j | 0 <= i < j < |s| ensures s[i] != s[j] {
      StrLessIrreflexive(s[i]);
    }
  }

  /** A set has one strictly sorted listing, so `sorted(set(...))` is determined by the set. */
  lemma {:induction false} StrictlySortedUnique(a: seq<string>, b: seq<string>)
    requires StrictlySorted(a) && StrictlySorted(b)
    requires forall y :: y in a <==> y in b
    ensures a == b
    decreases |a|
  {
    assert a != [] ==> a[0] in b;
    assert b != [] ==> b[0] in a;
    if a != [] && b != [] {
      if a[0] != b[0] {
        assert a[0] in b && b[0] in a;
        var i :| 0 <= i < |b| && b[i] == a[0];
        var j :| 0 <= j < |a| && a[j] == b[0];
        assert StrLess(b[0], a[0]);
        assert StrLess(a[0], b[0]);
        StrLessTransitive(a[0], b[0], a[0]);
        StrLessIrreflexive(a[0]);
      }
      StrictlySortedDistinct(a);
      StrictlySortedDistinct(b);
      forall y ensures y in a[1..] <==> y in b[1..] {
        if y in a[1..] {
          var i :| 0 <= i < |a[1..]| && a[1..][i] == y;
          assert a[i + 1] == y && y != a[0];
          assert y in a && y in b;
          var k :| 0 <= k < |b| && b[k] == y;
          assert k != 0 && b[1..][k - 1] == y;
        }
        if y in b[1..] {
          var i :| 0 <= i < |b[1..]| && b[1..][i] == y;
          assert b[i + 1] == y && y != b[0];
          assert y in b && y in a;
          var k :| 0 <= k < |a| && a[k] == y;
          assert k != 0 && a[1..][k - 1] == y;
        }
      }
      StrictlySortedUnique(a[1..], b[1..]);
      assert a == [a[0]] + a[1..] && b == [b[0]] + b[1..];
    }
  }

  function DbCategories(ps: seq<Product>): (cs: seq<string>)
    ensures |cs| == |ps| && forall i :: 0 <= i < |ps| ==> cs[i] == ps[i].category
  {
    seq(|ps|, i requires 0 <= i < |ps| => ps[i].category)
  }

  /** get_categories: strictly sorted, so without repeats, and exactly the categories in use. */
  function Categories(): (r: seq<string>)
    ensures StrictlySorted(r)
    ensures forall c :: c in r <==> exists p :: p in ProductsDb && p.category == c
  {
    var r := SortedUnique(DbCategories(ProductsDb));
    forall c ensures c in r <==> exists p :: p in ProductsDb && p.category == c {
      if c in DbCategories(ProductsDb) {
        var i :| 0 <= i < |ProductsDb| && DbCategories(ProductsDb)[i] == c;
        assert ProductsDb[i] in ProductsDb;
      }
    }
    r
  }

  /** On the shipped catalogue: books, clothing, electronics, in code-point order. */
  lemma ShippedCategories()
    ensures Categories() == ["Книги", "Одежда", "Электроника"]
  {
    var expected := ["Книги", "Одежда", "Электроника"];
    ShippedOrder();
    ShippedCategorySet();
    StrictlySortedUnique(Categories(), expected);
  }

  lemma ShippedOrder()
    ensures StrictlySorted(["Книги", "Одежда", "Электроника"])
  {
    var expected := ["Книги", "Одежда", "Электроника"];
    assert StrLess(expected[0], expected[1]) && StrLess(expected[1], expected[2]);
    StrLessTransitive(expected[0], expected[1], expected[2]);
  }

  lemma ShippedCategorySet()
    ensures forall c :: (exists p :: p in ProductsDb && p.category == c) <==> c in ["Книги", "Одежда", "Электроника"]
  {
    var expected := ["Книги", "Одежда", "Электроника"];
    assert forall p :: p in ProductsDb ==> p.category in expected;
    assert ProductsDb[5].category == expected[0] && ProductsDb[5] in ProductsDb;
    assert ProductsDb[3].category == expected[1] && ProductsDb[3] in ProductsDb;
    assert ProductsDb[0].category == expected[2] && ProductsDb[0] in ProductsDb;
  }
}
