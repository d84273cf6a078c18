/** `AgeGate`: a dialog that asks for a birth date (or a yes/no answer), decides
    whether the visitor is old enough, optionally remembers a positive answer in
    `localStorage`, `sessionStorage` or a cookie, and on the next mount stays
    closed when a remembered answer is found. */
module AgeGate {
  import opened Common
  import opened Browser

  // ---------------------------------------------------------------------------
  // Ages

  /** A calendar date as `getFullYear`, `getMonth` (0-11) and `getDate` report it. */
  datatype Date = Date(year: int, month: int, day: int)

  /** `a` is on or before `b`, comparing year, then month, then day. */
  predicate NotAfter(a: Date, b: Date)
  {
    a.year < b.year
    || (a.year == b.year && (a.month < b.month || (a.month == b.month && a.day <= b.day)))
  }

  /** `calculateAge(birthDate)` on the day `today`: the difference in years, one
      less when this year's birthday is still to come. */
  function CalculateAge(birth: Date, today: Date): int
  {
    var age := today.year - birth.year;
    var monthDiff := today.month - birth.month;
    if monthDiff < 0 || (monthDiff == 0 && today.day < birth.day) then age - 1 else age
  }

  /** The age is at least `n` exactly when the `n`-th anniversary of the birth
      date has been reached. */
  lemma AgeReached(birth: Date, today: Date, n: int)
    ensures CalculateAge(birth, today) >= n <==> NotAfter(Date(birth.year + n, birth.month, birth.day), today)
  {
  }

  /** On the `n`-th anniversary the age is exactly `n`: a birth date 25 years
      before today gives 25. */
  lemma AgeOnAnniversary(birth: Date, n: int)
    ensures CalculateAge(birth, Date(birth.year + n, birth.month, birth.day)) == n
  {
  }

  /** Ages never go down as time passes. */
  lemma AgeMonotone(birth: Date, t1: Date, t2: Date)
    requires NotAfter(t1, t2)
    ensures CalculateAge(birth, t1) <= CalculateAge(birth, t2)
  {
  }

  // ---------------------------------------------------------------------------
  // Reading a cookie

  /** A missing or empty string reads as `null`. */
  function NonEmpty(s: Option<string>): (r: Option<string>)
    ensures r.Some? <==> s.Some? && s.value != ""
    ensures r.Some? ==> r == s
  {
    if s.Some? && s.value != "" then s else None
  }

  /** `getCookie(name)` given the current `document.cookie`: split `"; " + cookie`
      at `"; name="`; with exactly two pieces the value is the second piece up to
      its first `;`, and an empty value reads as `null`. */
  function GetCookie(cookie: string, name: string): Option<string>
  {
    var parts := Split("; " + cookie, "; " + name + "=");
    if |parts| == 2 then NonEmpty(Some(TakeUntil(parts[1], ';'))) else None
  }

  /** Inside one `"; k=v"` segment, `"; name="` can only start at the segment's
      own beginning, and only when `k` is `name`. */
  lemma SegmentMatch(k: string, v: string, name: string, rest: string, i: nat)
    requires CookieName(k) && CookieValue(v) && CookieName(name)
    requires i < |"; " + k + "=" + v|
    ensures OccursAt("; " + k + "=" + v + rest, "; " + name + "=", i) ==> i == 0 && k == name
  {
    var a := "; " + k + "=" + v;
    var s := a + rest;
    var pat := "; " + name + "=";
    forall j | 0 < j < |a| ensures a[j] != ';' {
      if 2 <= j < 2 + |k| {
        assert a[j] == k[j - 2];
      } else if j > 2 + |k| {
        assert a[j] == v[j - 3 - |k|];
      }
    }
    if i != 0 {
      assert s[i] == a[i];
      NotOccursAtFirstChar(s, pat, i);
    } else if OccursAt(s, pat, 0) {
      assert s[..|pat|] == pat;
      forall j | 2 <= j < 2 + |name| ensures s[j] != '=' {
        assert s[j] == pat[j] == name[j - 2];
      }
      assert s[2 + |name|] == pat[2 + |name|] == '=';
      forall j | 2 <= j < 2 + |k| ensures s[j] != '=' {
        assert s[j] == k[j - 2];
      }
      assert s[2 + |k|] == '=';
      assert |k| == |name|;
      assert k == s[2..2 + |k|] == name;
    }
  }

  /** `"; name="` does not start inside the segments of cookies with other names. */
  lemma {:induction false} NoMatchInSegments(pre: Entries, x: string, name: string)
    requires WellFormedJar(pre) && CookieName(name)
    requires forall j :: 0 <= j < |pre| ==> pre[j].0 != name
    ensures forall i: nat :: i < |Segments(pre)| ==> !OccursAt(Segments(pre) + x, "; " + name + "=", i)
    decreases |pre|
  {
    if pre != [] {
      var pat := "; " + name + "=";
      var a := "; " + pre[0].0 + "=" + pre[0].1;
      var tail := Segments(pre[1..]);
      assert WellFormedJar(pre[1..]) by {
        assert forall j :: 0 <= j < |pre[1..]| ==> pre[1..][j] == pre[j + 1];
      }
      NoMatchInSegments(pre[1..], x, name);
      assert Segments(pre) + x == a + (tail + x);
      forall i: nat | i < |Segments(pre)| ensures !OccursAt(Segments(pre) + x, pat, i) {
        if i < |a| {
          SegmentMatch(pre[0].0, pre[0].1, name, tail + x, i);
        } else {
          OccursShift(a, tail + x, pat, i - |a|);
        }
      }
    }
  }

  /** After the matching segment's `"; name="`, the rest of the header (the
      value and the later cookies) holds no further match. */
  lemma NoMatchAfter(v: string, post: Entries, name: string)
    requires WellFormedJar(post) && CookieName(name) && CookieValue(v)
    requires forall j :: 0 <= j < |post| ==> post[j].0 != name
    ensures forall i: nat :: i < |v + Segments(post)| ==> !OccursAt(v + Segments(post), "; " + name + "=", i)
  {
    var pat := "; " + name + "=";
    var tail := Segments(post);
    var y := v + tail;
    NoMatchInSegments(post, "", name);
    assert tail + "" == tail;
    forall i: nat | i < |y| ensures !OccursAt(y, pat, i) {
      if i < |v| {
        assert y[i] == v[i];
        NotOccursAtFirstChar(y, pat, i);
      } else {
        OccursShift(v, tail, pat, i - |v|);
      }
    }
  }

  /** The header of a jar holding `name` at position `k`, cut around that cookie. */
  lemma HeaderAround(jar: Entries, k: nat)
    requires k < |jar|
    ensures "; " + CookieHeader(jar)
         == Segments(jar[..k]) + ("; " + jar[k].0 + "=" + (jar[k].1 + Segments(jar[k + 1..])))
  {
    var pre, post := jar[..k], jar[k + 1..];
    assert jar == pre + ([jar[k]] + post);
    SegmentsAppend(pre, [jar[k]] + post);
    assert ([jar[k]] + post)[1..] == post;
  }

  /** A well-formed jar holding `name` at position `k` reads back its value. */
  lemma GetCookieFound(jar: Entries, name: string, k: nat)
    requires WellFormedJar(jar) && CookieName(name)
    requires k < |jar| && jar[k].0 == name
    ensures GetCookie(CookieHeader(jar), name) == NonEmpty(Some(jar[k].1))
  {
    var post := jar[k + 1..];
    var v := jar[k].1;
    HeaderSplitsAt(jar, name, k);
    assert CookieValue(v);
    TakeUntilPrefix(v, Segments(post), ';');
  }

  /** Splitting the header of a well-formed jar at `"; name="` leaves two
      pieces: the cookies before `name`, and its value followed by the rest. */
  lemma HeaderSplitsAt(jar: Entries, name: string, k: nat)
    requires WellFormedJar(jar) && CookieName(name)
    requires k < |jar| && jar[k].0 == name
    ensures Split("; " + CookieHeader(jar), "; " + name + "=")
         == [Segments(jar[..k]), jar[k].1 + Segments(jar[k + 1..])]
  {
    var pat := "; " + name + "=";
    var pre, post := jar[..k], jar[k + 1..];
    var v := jar[k].1;
    var y := v + Segments(post);
    HeaderAround(jar, k);
    assert "; " + CookieHeader(jar) == Segments(pre) + (pat + y);
    assert WellFormedJar(pre) && forall j :: 0 <= j < |pre| ==> pre[j].0 != name by {
      assert forall j :: 0 <= j < |pre| ==> pre[j] == jar[j];
    }
    assert WellFormedJar(post) && forall j :: 0 <= j < |post| ==> post[j].0 != name by {
      assert forall j :: 0 <= j < |post| ==> post[j] == jar[k + 1 + j];
    }
    NoMatchInSegments(pre, pat + y, name);
    NoMatchAfter(v, post, name);
    SplitOnce(Segments(pre), pat, y);
  }

  /** A well-formed jar without `name` reads as `null`. */
  lemma GetCookieMissing(jar: Entries, name: string)
    requires WellFormedJar(jar) && CookieName(name)
    requires forall j :: 0 <= j < |jar| ==> jar[j].0 != name
    ensures GetCookie(CookieHeader(jar), name) == None
  {
    var pat := "; " + name + "=";
    if jar == [] {
      SplitWithoutSeparator("; ", pat);
    } else {
      var s := Segments(jar);
      NoMatchInSegments(jar, "", name);
      assert s + "" == s;
      SplitWithoutSeparator(s, pat);
    }
  }

  /** Reading a cookie from a well-formed jar gives the value stored under that
      name, with an empty value read as `null`. */
  lemma GetCookieFromJar(jar: Entries, name: string)
    requires WellFormedJar(jar) && CookieName(name)
    ensures GetCookie(CookieHeader(jar), name) == NonEmpty(ValueOf(jar, name))
  {
    match KeyIndex(jar, name) {
      case None =>
        ValueOfAbsent(jar, name);
        GetCookieMissing(jar, name);
      case Some(k) =>
        ValueOfDistinct(jar, k);
        GetCookieFound(jar, name, k);
    }
  }

  /** A header in which `"; name="` occurs twice, without overlap, reads as
      `null`: `getCookie` trusts only a single match. */
  lemma GetCookieDuplicate(h: string, name: string, i: nat, j: nat)
    requires OccursAt("; " + h, "; " + name + "=", i) && OccursAt("; " + h, "; " + name + "=", j)
    requires i + |"; " + name + "="| <= j
    ensures GetCookie(h, name) == None
  {
    SplitTwoOccurrences("; " + h, "; " + name + "=", i, j);
  }

  /** `document.cookie` reading `a=1; a=2` gives `null` for `a`. */
  lemma GetCookieDuplicateExample()
    ensures GetCookie("a=1; a=2", "a") == None
  {
    var h := "; " + "a=1; a=2";
    assert h == "; a=1; a=2";
    assert h[0..4] == "; a=" && h[5..9] == "; a=";
    GetCookieDuplicate("a=1; a=2", "a", 0, 5);
  }

  /** `getCookie` never returns an empty string, and its value stops before the
      next `;`. */
  lemma GetCookieValueShape(h: string, name: string)
    ensures GetCookie(h, name).Some? ==> GetCookie(h, name).value != "" && ';' !in GetCookie(h, name).value
  {
  }

  // ---------------------------------------------------------------------------
  // Writing a cookie

  datatype SameSite = Strict | Lax | SameSiteNone

  function SameSiteText(s: SameSite): string
  {
    match s
    case Strict => "strict"
    case Lax => "lax"
    case SameSiteNone => "none"
  }

  /** `CookieOptions`; `expires` holds the date already rendered by `toUTCString`. */
  datatype CookieOptions = CookieOptions(
    domain: Option<string>,
    path: Option<string>,
    secure: Option<bool>,
    sameSite: Option<SameSite>,
    maxAge: Option<int>,
    expires: Option<string>)

  /** The `options = {}` default of `setCookie`. */
  const NoCookieOptions := CookieOptions(None, None, None, None, None, None)

  function DigitChar(d: nat): char
    requires d < 10
  {
    ('0' as int + d) as char
  }

  /** The decimal digits of a natural number, as `String(n)` writes them. */
  function Digits(n: nat): (s: string)
    ensures s != [] && forall i :: 0 <= i < |s| ==> '0' <= s[i] <= '9'
  {
    if n < 10 then [DigitChar(n)] else Digits(n / 10) + [DigitChar(n % 10)]
  }

  /** The number a string of decimal digits denotes. */
  function DigitsValue(s: string): nat
  {
    if s == [] then 0
    else if '0' <= s[|s| - 1] <= '9' then DigitsValue(s[..|s| - 1]) * 10 + (s[|s| - 1] - '0') as nat
    else DigitsValue(s[..|s| - 1]) * 10
  }

  /** Reading the digits back gives the number. */
  lemma {:induction false} DigitsRoundTrip(n: nat)
    ensures DigitsValue(Digits(n)) == n
  {
    if n >= 10 {
      DigitsRoundTrip(n / 10);
      assert Digits(n)[..|Digits(n)| - 1] == Digits(n / 10);
    }
  }

  /** An integer in decimal, with a leading `-` when negative. */
  function DecimalString(n: int): (s: string)
    ensures ';' !in s && s != []
  {
    if n < 0 then "-" + Digits(-n) else Digits(n)
  }

  // What each `if` of `setCookie` appends: the attribute with its leading
  // `"; "`, or nothing.

  function MaxAgePart(o: CookieOptions): string
  {
    if o.maxAge.Some? then "; Max-Age=" + DecimalString(o.maxAge.value) else ""
  }

  function ExpiresPart(o: CookieOptions): string
  {
    if o.expires.Some? then "; Expires=" + o.expires.value else ""
  }

  function DomainPart(o: CookieOptions): string
  {
    if Truthy(o.domain) then "; Domain=" + o.domain.value else ""
  }

  function PathPart(o: CookieOptions): string
  {
    if Truthy(o.path) then "; Path=" + o.path.value else "; Path=/"
  }

  function SecurePart(o: CookieOptions): string
  {
    if o.secure == Some(true) then "; Secure" else ""
  }

  function SameSitePart(o: CookieOptions): string
  {
    if o.sameSite.Some? then "; SameSite=" + SameSiteText(o.sameSite.value) else ""
  }

  /** The string `setCookie` assigns to `document.cookie`: `name=value`, then
      `Max-Age`, `Expires`, `Domain`, `Path` (always, `/` by default), `Secure`
      and `SameSite`, in that order. */
  function CookieString(name: string, value: string, o: CookieOptions): string
  {
    name + "=" + value + MaxAgePart(o) + ExpiresPart(o) + DomainPart(o) + PathPart(o) + SecurePart(o) + SameSitePart(o)
  }

  /** `t` starts with `pair`, followed by nothing or by a `;`. */
  predicate PairThenAttributes(t: string, pair: string)
  {
    |pair| <= |t| && t[..|pair|] == pair && (|t| == |pair| || t[|pair|] == ';')
  }

  /** Appending a part that is empty or starts with `;` keeps that shape. */
  lemma AppendPart(t: string, pair: string, part: string)
    requires PairThenAttributes(t, pair) && (part == "" || part[0] == ';')
    ensures PairThenAttributes(t + part, pair)
    ensures part != "" ==> |pair| < |t + part|
  {
    assert (t + part)[..|pair|] == t[..|pair|];
    if |t| == |pair| && part != "" {
      assert (t + part)[|pair|] == part[0];
    } else if |t| > |pair| {
      assert (t + part)[|pair|] == t[|pair|];
    }
  }

  /** The cookie string is the pair, then at least one attribute, led by `;`. */
  lemma CookieStringShape(name: string, value: string, o: CookieOptions)
    ensures var pair := name + "=" + value;
      var s := CookieString(name, value, o);
      |pair| < |s| && s[..|pair|] == pair && s[|pair|] == ';'
  {
    var pair := name + "=" + value;
    assert PairThenAttributes(pair, pair);
    var t := pair;
    AppendPart(t, pair, MaxAgePart(o));
    t := t + MaxAgePart(o);
    AppendPart(t, pair, ExpiresPart(o));
    t := t + ExpiresPart(o);
    AppendPart(t, pair, DomainPart(o));
    t := t + DomainPart(o);
    AppendPart(t, pair, PathPart(o));
    t := t + PathPart(o);
    AppendPart(t, pair, SecurePart(o));
    t := t + SecurePart(o);
    AppendPart(t, pair, SameSitePart(o));
    t := t + SameSitePart(o);
    assert t == CookieString(name, value, o);
  }

  /** The pair before the first `;` of a cookie string is `name=value`. */
  lemma CookieStringPair(name: string, value: string, o: CookieOptions)
    requires CookieName(name) && CookieValue(value)
    ensures TakeUntil(CookieString(name, value, o), ';') == name + "=" + value
  {
    var pair := name + "=" + value;
    assert ';' !in pair by {
      assert forall k :: 0 <= k < |pair| ==> pair[k] == (if k < |name| then name[k] else if k == |name| then '=' else value[k - |name| - 1]);
    }
    CookieStringShape(name, value, o);
    PairBeforeSemicolon(CookieString(name, value, o), pair);
  }

  /** A string that starts with a `;`-free `pair` followed by a `;` yields
      `pair` when cut at its first `;`. */
  lemma PairBeforeSemicolon(t: string, pair: string)
    requires ';' !in pair && |pair| < |t| && t[..|pair|] == pair && t[|pair|] == ';'
    ensures TakeUntil(t, ';') == pair
  {
    assert t == pair + t[|pair|..];
    TakeUntilPrefix(pair, t[|pair|..], ';');
  }

  /** Assigning a string whose leading pair is `name=value`, for a well-formed
      name and value, stores that pair. */
  lemma StorePair(jar: Entries, s: string, name: string, value: string)
    requires CookieName(name) && CookieValue(value)
    requires TakeUntil(s, ';') == name + "=" + value
    ensures StoreCookie(jar, s) == Assign(jar, name, value)
  {
    var pair := name + "=" + value;
    assert pair[..|name|] == name;
    FirstCharAt(pair, '=', |name|);
    assert IndexOf(pair, "=") == Some(|name|);
    assert pair[|name| + 1..] == value;
  }

  /** Assigning a cookie string built from a well-formed name and value stores
      exactly that pair, whatever the attributes. */
  lemma StoreCookieString(jar: Entries, name: string, value: string, o: CookieOptions)
    requires CookieName(name) && CookieValue(value)
    ensures StoreCookie(jar, CookieString(name, value, o)) == Assign(jar, name, value)
  {
    CookieStringPair(name, value, o);
    StorePair(jar, CookieString(name, value, o), name, value);
  }

  /** Every cookie `setCookie` writes carries a `Path`: the given one, or `/`. */
  lemma CookieAlwaysHasPath(name: string, value: string, o: CookieOptions)
    ensures Contains(CookieString(name, value, o), "; Path=" + (if Truthy(o.path) then o.path.value else "/"))
  {
    var head := name + "=" + value + MaxAgePart(o) + ExpiresPart(o) + DomainPart(o);
    var s := CookieString(name, value, o);
    var pat := "; Path=" + (if Truthy(o.path) then o.path.value else "/");
    assert PathPart(o) == pat;
    assert s == head + pat + SecurePart(o) + SameSitePart(o);
    assert s[|head|..|head| + |pat|] == pat;
    assert OccursAt(s, pat, |head|);
  }

  /** One property of an object literal: left out, written as `undefined`, or given a value. */
  datatype Field<T> = Absent | Undefined | Given(value: T)

  /** The `cookieOptions` prop as the caller writes it. */
  datatype GivenCookieOptions = GivenCookieOptions(
    domain: Field<string>,
    path: Field<string>,
    secure: Field<bool>,
    sameSite: Field<SameSite>,
    maxAge: Field<int>,
    expires: Field<string>)

  /** One property of `{...base, ...given}`: a property written in `given`, even
      as `undefined`, replaces the one in `base`. */
  function Spread<T>(base: Option<T>, f: Field<T>): Option<T>
  {
    match f
    case Absent => base
    case Undefined => None
    case Given(v) => Some(v)
  }

  /** `{ maxAge: 60 * 60 * 24 * 365, path: "/", sameSite: "lax", ...cookieOptions }`:
      every option the caller writes wins over the default, an explicit
      `undefined` included, and only the options left out keep their default. */
  function WithCookieDefaults(given: Option<GivenCookieOptions>): (o: CookieOptions)
    ensures given.None? ==> o == CookieOptions(None, Some("/"), None, Some(Lax), Some(31536000), None)
    ensures given.Some? ==>
      var g := given.value;
      && (g.maxAge.Absent? ==> o.maxAge == Some(31536000))
      && (g.path.Absent? ==> o.path == Some("/"))
      && (g.sameSite.Absent? ==> o.sameSite == Some(Lax))
      && (g.domain.Absent? ==> o.domain.None?) && (g.secure.Absent? ==> o.secure.None?)
      && (g.expires.Absent? ==> o.expires.None?)
      && (g.maxAge.Given? ==> o.maxAge == Some(g.maxAge.value))
      && (g.path.Given? ==> o.path == Some(g.path.value))
      && (g.sameSite.Given? ==> o.sameSite == Some(g.sameSite.value))
      && (g.domain.Given? ==> o.domain == Some(g.domain.value))
      && (g.secure.Given? ==> o.secure == Some(g.secure.value))
      && (g.expires.Given? ==> o.expires == Some(g.expires.value))
      && (g.maxAge.Undefined? ==> o.maxAge.None?) && (g.path.Undefined? ==> o.path.None?)
      && (g.sameSite.Undefined? ==> o.sameSite.None?) && (g.domain.Undefined? ==> o.domain.None?)
      && (g.secure.Undefined? ==> o.secure.None?) && (g.expires.Undefined? ==> o.expires.None?)
  {
    var defaults := CookieOptions(None, Some("/"), None, Some(Lax), Some(60 * 60 * 24 * 365), None);
    match given
    case None => defaults
    case Some(g) =>
      CookieOptions(
        Spread(defaults.domain, g.domain),
        Spread(defaults.path, g.path),
        Spread(defaults.secure, g.secure),
        Spread(defaults.sameSite, g.sameSite),
        Spread(defaults.maxAge, g.maxAge),
        Spread(defaults.expires, g.expires))
  }

  /** `maxAge: undefined` written by the caller removes the one-year default, so
      the cookie carries no `Max-Age` and ends with the session; its `Path` is
      still `/` when the caller leaves `path` out. */
  lemma UndefinedMaxAgeGivesSessionCookie(given: GivenCookieOptions)
    requires given.maxAge.Undefined? && given.path.Absent?
    ensures MaxAgePart(WithCookieDefaults(Some(given))) == ""
    ensures PathPart(WithCookieDefaults(Some(given))) == "; Path=/"
  {
  }

  /** With no options of its own a remembered verification cookie lasts a year,
      is scoped to the whole site and is sent on same-site requests only. */
  lemma DefaultVerificationCookie(key: string, value: string)
    ensures CookieString(key, value, WithCookieDefaults(None))
         == key + "=" + value + "; Max-Age=31536000" + "; Path=/" + "; SameSite=lax"
  {
    var o := WithCookieDefaults(None);
    OneYearInSeconds();
    assert MaxAgePart(o) == "; Max-Age=31536000";
    assert ExpiresPart(o) == "" && DomainPart(o) == "" && SecurePart(o) == "";
    assert PathPart(o) == "; Path=/";
    assert SameSitePart(o) == "; SameSite=lax";
  }

  /** A year of seconds is written `31536000`. */
  lemma OneYearInSeconds()
    ensures DecimalString(60 * 60 * 24 * 365) == "31536000"
  {
    assert Digits(3) == "3";
    assert Digits(31) == "31";
    assert Digits(315) == "315";
    assert Digits(3153) == "3153";
    assert Digits(31536) == "31536";
    assert Digits(315360) == "315360";
    assert Digits(3153600) == "3153600";
    assert Digits(31536000) == "31536000";
  }

  /** `setCookie(name, value, options)`: the cookie string is built attribute
      by attribute and assigned to `document.cookie`. */
  method SetCookie(w: Window, name: string, value: string, o: CookieOptions)
    requires w.Valid()
    modifies w
    ensures w.Valid()
    ensures w.jar == StoreCookie(old(w.jar), CookieString(name, value, o))
    ensures w.local == old(w.local) && w.session == old(w.session)
  {
    var cookieString := name + "=" + value;
    ghost var pair := cookieString;
    if o.maxAge.Some? {
      cookieString := cookieString + ("; Max-Age=" + DecimalString(o.maxAge.value));
    }
    assert cookieString == pair + MaxAgePart(o);
    if o.expires.Some? {
      cookieString := cookieString + ("; Expires=" + o.expires.value);
    }
    assert cookieString == pair + MaxAgePart(o) + ExpiresPart(o);
    if Truthy(o.domain) {
      cookieString := cookieString + ("; Domain=" + o.domain.value);
    }
    assert cookieString == pair + MaxAgePart(o) + ExpiresPart(o) + DomainPart(o);
    if Truthy(o.path) {
      cookieString := cookieString + ("; Path=" + o.path.value);
    } else {
      cookieString := cookieString + "; Path=/";
    }
    assert cookieString == pair + MaxAgePart(o) + ExpiresPart(o) + DomainPart(o) + PathPart(o);
    if o.secure == Some(true) {
      cookieString := cookieString + "; Secure";
    }
    assert cookieString == pair + MaxAgePart(o) + ExpiresPart(o) + DomainPart(o) + PathPart(o) + SecurePart(o);
    if o.sameSite.Some? {
      cookieString := cookieString + ("; SameSite=" + SameSiteText(o.sameSite.value));
    }
    assert cookieString == CookieString(name, value, o);
    w.WriteCookie(cookieString);
  }

  // ---------------------------------------------------------------------------
  // Remembering a verification

  datatype StorageType = InStorage(area: StorageArea) | InCookie

  /** `JSON.stringify(verified)`. */
  function BoolText(b: bool): string
  {
    if b then "true" else "false"
  }

  /** `stored ? JSON.parse(stored) : null` for the texts a gate writes: `"true"`
      and `"false"` parse to booleans; a missing or empty text, `"null"` and every
      other text read as `null`. */
  function ParseStored(s: Option<string>): (r: Option<bool>)
    ensures r.Some? <==> s == Some("true") || s == Some("false")
    ensures r.Some? ==> s == Some(BoolText(r.value))
  {
    if s == Some("true") then Some(true)
    else if s == Some("false") then Some(false)
    else None
  }

  /** `getStoredVerification(storageKey, storageType)`. */
  function GetStoredVerification(w: Window, key: string, t: StorageType): Option<bool>
    reads w
  {
    match t
    case InCookie => ParseStored(GetCookie(w.Cookie(), key))
    case InStorage(area) => ParseStored(NonEmpty(w.GetItem(area, key)))
  }

  /** The page state after `setStoredVerification(key, verified, t, cookieOptions)`:
      the cookie jar took the cookie string, or the storage area the text. */
  twostate predicate StoredVerification(w: Window, key: string, verified: bool, t: StorageType,
                                        cookieOptions: Option<GivenCookieOptions>)
    reads w
  {
    match t
    case InCookie =>
      && w.jar == StoreCookie(old(w.jar), CookieString(key, BoolText(verified), WithCookieDefaults(cookieOptions)))
      && w.local == old(w.local) && w.session == old(w.session)
    case InStorage(LocalStorage) =>
      w.local == old(w.local)[key := BoolText(verified)] && w.session == old(w.session) && w.jar == old(w.jar)
    case InStorage(SessionStorage) =>
      w.session == old(w.session)[key := BoolText(verified)] && w.local == old(w.local) && w.jar == old(w.jar)
  }

  /** Writing a verification cookie and reading it back gives the same answer,
      and leaves the cookies under other names as they read before. */
  lemma VerificationCookieRoundTrip(jar: Entries, key: string, verified: bool, o: CookieOptions)
    requires WellFormedJar(jar) && CookieName(key)
    ensures var after := StoreCookie(jar, CookieString(key, BoolText(verified), o));
      && WellFormedJar(after)
      && ParseStored(GetCookie(CookieHeader(after), key)) == Some(verified)
      && forall k :: k != key && CookieName(k) ==> GetCookie(CookieHeader(after), k) == GetCookie(CookieHeader(jar), k)
  {
    var text := BoolText(verified);
    var after := StoreCookie(jar, CookieString(key, text, o));
    StoreCookieString(jar, key, text, o);
    AssignSpec(jar, key, text);
    StoreCookieWellFormed(jar, CookieString(key, text, o));
    GetCookieFromJar(after, key);
    forall k | k != key && CookieName(k)
      ensures GetCookie(CookieHeader(after), k) == GetCookie(CookieHeader(jar), k)
    {
      GetCookieFromJar(jar, k);
      GetCookieFromJar(after, k);
    }
  }

  /** `setStoredVerification(storageKey, verified, storageType, cookieOptions)`;
      reading the key back afterwards gives `verified`. */
  method SetStoredVerification(w: Window, key: string, verified: bool, t: StorageType,
                               cookieOptions: Option<GivenCookieOptions>)
    requires w.Valid()
    modifies w
    ensures w.Valid()
    ensures StoredVerification(w, key, verified, t, cookieOptions)
    ensures t.InStorage? || CookieName(key) ==> GetStoredVerification(w, key, t) == Some(verified)
    ensures forall k :: k != key && (t.InStorage? || (CookieName(key) && CookieName(k))) ==>
      GetStoredVerification(w, k, t) == old(GetStoredVerification(w, k, t))
  {
    match t {
      case InCookie =>
        ghost var jar0 := w.jar;
        var o := WithCookieDefaults(cookieOptions);
        SetCookie(w, key, BoolText(verified), o);
        if CookieName(key) {
          VerificationCookieRoundTrip(jar0, key, verified, o);
        }
      case InStorage(area) =>
        w.SetItem(area, key, BoolText(verified));
    }
  }

  // ---------------------------------------------------------------------------
  // The dialog

  /** The callbacks the gate invokes, in the order it invokes them. */
  datatype Call = OpenChange(open: bool) | Verified(age: Option<int>) | Denied | VerificationError(error: string)

  /** The props that stay fixed while the gate is mounted; `has*` says which
      callback props are present. */
  datatype Props = Props(
    minimumAge: int,
    rememberVerification: bool,
    storageKey: string,
    storageType: StorageType,
    cookieOptions: Option<GivenCookieOptions>,
    autoCloseOnVerify: bool,
    resetErrorOnOpenChange: bool,
    hasOnOpenChange: bool,
    hasOnVerified: bool,
    hasOnDenied: bool,
    hasOnError: bool)

  /** The declared defaults, with no callbacks. */
  const DefaultProps := Props(18, false, "age-gate-verified", InStorage(LocalStorage), None, true, true,
                              false, false, false, false)

  const EmptyBirthdateMessage := "Please enter your date of birth"
  const InvalidDateMessage := "Please enter a valid date"

  /** What the storage check on mount leaves `internalOpen` at: a remembered
      verification closes an uncontrolled gate, no remembered answer opens it,
      and otherwise nothing changes. */
  function OpenAfterStorageCheck(remember: bool, controlled: bool, stored: Option<bool>, current: bool): (r: bool)
    ensures !remember || controlled ==> r == current
    ensures remember && !controlled && stored == Some(true) ==> !r
    ensures remember && !controlled && stored.None? ==> r
    ensures stored == Some(false) ==> r == current
  {
    if !remember then current
    else if stored == Some(true) then (if controlled then current else false)
    else if !controlled && stored.None? then true
    else current
  }

  class Gate {
    const props: Props
    const window: Window
    /** The `open` prop, which the parent may change; None when uncontrolled. */
    var open: Option<bool>
    var internalOpen: bool
    var birthdate: string
    var rememberChoice: bool
    var error: Option<string>
    var calls: seq<Call>

    /** `controlled ? open : internalOpen`. */
    function EffectiveOpen(): bool
      reads this
    {
      if open.Some? then open.value else internalOpen
    }

    /** First render: closed internally, no birth date, box unticked, no error. */
    constructor(window: Window, props: Props, open: Option<bool>)
      ensures this.window == window && this.props == props && this.open == open
      ensures !internalOpen && birthdate == "" && !rememberChoice && error.None? && calls == []
    {
      this.window := window;
      this.props := props;
      this.open := open;
      internalOpen := false;
      birthdate := "";
      rememberChoice := false;
      error := None;
      calls := [];
    }

    /** The effect on `[rememberVerification, storageKey, storageType, controlled]`. */
    method StorageEffect()
      modifies this
      ensures internalOpen == OpenAfterStorageCheck(props.rememberVerification, open.Some?,
        GetStoredVerification(window, props.storageKey, props.storageType), old(internalOpen))
      ensures open == old(open) && birthdate == old(birthdate) && rememberChoice == old(rememberChoice)
      ensures error == old(error) && calls == old(calls)
    {
      if !props.rememberVerification {
        return;
      }
      var stored := GetStoredVerification(window, props.storageKey, props.storageType);
      if stored == Some(true) {
        if open.None? {
          internalOpen := false;
        }
        return;
      }
      if open.None? && stored.None? {
        internalOpen := true;
      }
    }

    /** The effect on `[effectiveOpen, resetErrorOnOpenChange]`. */
    method ResetErrorEffect()
      modifies this
      ensures error == (if props.resetErrorOnOpenChange then None else old(error))
      ensures open == old(open) && internalOpen == old(internalOpen) && birthdate == old(birthdate)
      ensures rememberChoice == old(rememberChoice) && calls == old(calls)
    {
      if props.resetErrorOnOpenChange {
        error := None;
      }
    }

    /** After the first render both effects run, in declaration order. */
    method Mount()
      modifies this
      ensures internalOpen == OpenAfterStorageCheck(props.rememberVerification, open.Some?,
        GetStoredVerification(window, props.storageKey, props.storageType), old(internalOpen))
      ensures error == (if props.resetErrorOnOpenChange then None else old(error))
      ensures open == old(open) && birthdate == old(birthdate) && rememberChoice == old(rememberChoice)
      ensures calls == old(calls)
    {
      StorageEffect();
      ResetErrorEffect();
    }

    /** The parent re-renders with a new `open` prop. That render shows `o`, or
        the unchanged internal state once the gate is uncontrolled; the storage
        check runs again when the gate switches between controlled and
        uncontrolled, and may change the internal state, which renders once more.
        The error is reset after each of the two renders that changed what is shown. */
    method SetOpenProp(o: Option<bool>)
      modifies this
      ensures open == o
      ensures internalOpen == (if old(open).Some? != o.Some? then OpenAfterStorageCheck(props.rememberVerification,
        o.Some?, GetStoredVerification(window, props.storageKey, props.storageType), old(internalOpen))
        else old(internalOpen))
      ensures var shown := if o.Some? then o.value else old(internalOpen);
        error == (if (shown != old(EffectiveOpen()) || EffectiveOpen() != shown) && props.resetErrorOnOpenChange
                  then None else old(error))
      ensures birthdate == old(birthdate) && rememberChoice == old(rememberChoice) && calls == old(calls)
    {
      var wasControlled := open.Some?;
      var wasOpen := EffectiveOpen();
      open := o;
      var shown := EffectiveOpen();
      if wasControlled != o.Some? {
        StorageEffect();
      }
      if wasOpen != shown || shown != EffectiveOpen() {
        ResetErrorEffect();
      }
    }

    /** `handleOpenChange(nextOpen)`. */
    method HandleOpenChange(next: bool)
      modifies this
      ensures internalOpen == (if open.None? then next else old(internalOpen))
      ensures calls == Fire(old(calls), props.hasOnOpenChange, OpenChange(next))
      ensures error == (if EffectiveOpen() != old(EffectiveOpen()) && props.resetErrorOnOpenChange then None else old(error))
      ensures open == old(open) && birthdate == old(birthdate) && rememberChoice == old(rememberChoice)
    {
      var wasOpen := EffectiveOpen();
      if open.None? {
        internalOpen := next;
      }
      calls := Fire(calls, props.hasOnOpenChange, OpenChange(next));
      if wasOpen != EffectiveOpen() {
        ResetErrorEffect();
      }
    }

    /** The birth-date input's `onChange`. */
    method SetBirthdate(text: string)
      modifies this
      ensures birthdate == text
      ensures open == old(open) && internalOpen == old(internalOpen) && rememberChoice == old(rememberChoice)
      ensures error == old(error) && calls == old(calls)
    {
      birthdate := text;
    }

    /** The "remember my choice" checkbox's `onChange`. */
    method SetRememberChoice(checked: bool)
      modifies this
      ensures rememberChoice == checked
      ensures open == old(open) && internalOpen == old(internalOpen) && birthdate == old(birthdate)
      ensures error == old(error) && calls == old(calls)
    {
      rememberChoice := checked;
    }

    /** The whole effect of `handleVerification(verified, age)` when the awaited
        callback ends with `outcome`: a positive answer is stored first when both
        the prop and the checkbox ask for it; the callback for the answer runs;
        on success the gate closes when `autoCloseOnVerify`, on failure the
        error is kept and reported. */
    twostate predicate VerificationDone(verified: bool, age: Option<int>, outcome: Outcome)
      reads this, window
    {
      Remembered(verified) && Settled(verified, age, outcome)
    }

    /** The storage half: the answer is written only when it is a pass, the
        gate remembers answers and the box was ticked. */
    twostate predicate Remembered(verified: bool)
      reads this, window
    {
      var stores := verified && props.rememberVerification && old(rememberChoice);
      && (stores ==> StoredVerification(window, props.storageKey, true, props.storageType, props.cookieOptions))
      && (stores && (props.storageType.InStorage? || CookieName(props.storageKey)) ==>
            GetStoredVerification(window, props.storageKey, props.storageType) == Some(true))
      && (!stores ==> window.local == old(window.local) && window.session == old(window.session) && window.jar == old(window.jar))
    }

    /** The callback half: which callbacks fired, the error and the open state. */
    twostate predicate Settled(verified: bool, age: Option<int>, outcome: Outcome)
      reads this
    {
      var present := if verified then props.hasOnVerified else props.hasOnDenied;
      var result := if present then outcome else Resolved;
      var invoked := Fire(old(calls), present, if verified then Verified(age) else Denied);
      && (result.Rejected? ==>
            && error == Some(result.reason) && internalOpen == old(internalOpen)
            && calls == Fire(invoked, props.hasOnError, VerificationError(result.reason)))
      && (result.Resolved? && props.autoCloseOnVerify ==>
            && error.None? && internalOpen == (if open.None? then false else old(internalOpen))
            && calls == Fire(invoked, props.hasOnOpenChange, OpenChange(false)))
      && (result.Resolved? && !props.autoCloseOnVerify ==>
            error.None? && internalOpen == old(internalOpen) && calls == invoked)
      && open == old(open) && birthdate == old(birthdate) && rememberChoice == old(rememberChoice)
    }

    /** `handleVerification(verified, age)`, run to completion. */
    method HandleVerification(verified: bool, age: Option<int>, outcome: Outcome)
      requires window.Valid()
      modifies this, window
      ensures window.Valid()
      ensures VerificationDone(verified, age, outcome)
    {
      error := None;
      if verified && props.rememberVerification && rememberChoice {
        SetStoredVerification(window, props.storageKey, true, props.storageType, props.cookieOptions);
      }
      assert Remembered(verified);
      SettleVerification(verified, age, outcome);
    }

    /** The part of `handleVerification` after the storage step: the callback
        runs, then the gate closes or keeps the error. */
    method SettleVerification(verified: bool, age: Option<int>, outcome: Outcome)
      requires error.None?
      modifies this
      ensures Settled(verified, age, outcome)
    {
      var present := if verified then props.hasOnVerified else props.hasOnDenied;
      calls := Fire(calls, present, if verified then Verified(age) else Denied);
      var result := if present then outcome else Resolved;
      match result {
        case Resolved =>
          if props.autoCloseOnVerify {
            HandleOpenChange(false);
          }
        case Rejected(e) =>
          error := Some(e);
          calls := Fire(calls, props.hasOnError, VerificationError(e));
      }
    }

    /** `handleSimpleVerification(verified)`: the yes/no buttons pass no age. */
    method HandleSimpleVerification(verified: bool, outcome: Outcome)
      requires window.Valid()
      modifies this, window
      ensures window.Valid()
      ensures VerificationDone(verified, None, outcome)
    {
      HandleVerification(verified, None, outcome);
    }

    /** `handleBirthdateVerification()`; `parse` is the host's date parser (None
        for an invalid date) and `today` the current date. */
    method HandleBirthdateVerification(parse: string -> Option<Date>, today: Date, outcome: Outcome)
      requires window.Valid()
      modifies this, window
      ensures window.Valid()
      ensures Trim(birthdate) == "" ==>
        && error == Some(EmptyBirthdateMessage) && calls == old(calls) && internalOpen == old(internalOpen)
        && unchanged(window) && open == old(open) && birthdate == old(birthdate)
      ensures Trim(birthdate) != "" && parse(birthdate).None? ==>
        && error == Some(InvalidDateMessage) && calls == old(calls) && internalOpen == old(internalOpen)
        && unchanged(window) && open == old(open) && birthdate == old(birthdate)
      ensures Trim(old(birthdate)) != "" && parse(old(birthdate)).Some? ==>
        var age := CalculateAge(parse(old(birthdate)).value, today);
        VerificationDone(age >= props.minimumAge, Some(age), outcome)
    {
      if Trim(birthdate) == "" {
        error := Some(EmptyBirthdateMessage);
        return;
      }
      var birth := parse(birthdate);
      if birth.None? {
        error := Some(InvalidDateMessage);
        return;
      }
      var age := CalculateAge(birth.value, today);
      HandleVerification(age >= props.minimumAge, Some(age), outcome);
    }
  }

  /** A gate first rendered open under the parent's control: the visitor ticks
      "remember my choice" (or not) and answers yes; the parent then stops
      controlling it. With the box ticked the answer is stored and the gate stays
      closed; without it nothing is stored and the gate opens again. */
  method RememberedVerification(storageType: StorageType, key: string, rememberChoice: bool)
    returns (stored: Option<bool>, openAfter: bool)
    requires storageType.InStorage? || CookieName(key)
    ensures stored == (if rememberChoice then Some(true) else None)
    ensures openAfter == !rememberChoice
  {
    var w := new Window();
    var props := DefaultProps.(rememberVerification := true, storageKey := key, storageType := storageType,
                               hasOnVerified := true);
    var gate := new Gate(w, props, Some(true));
    if storageType.InCookie? {
      GetCookieMissing(w.jar, key);
    }
    assert GetStoredVerification(w, key, storageType) == None;
    gate.Mount();
    gate.SetRememberChoice(rememberChoice);
    assert !gate.internalOpen;
    gate.HandleSimpleVerification(true, Resolved);
    assert !gate.internalOpen;
    stored := GetStoredVerification(w, key, storageType);
    assert stored == (if rememberChoice then Some(true) else None);
    gate.SetOpenProp(None);
    openAfter := gate.EffectiveOpen();
  }

  /** A gate held open by the parent shows the blank-date message; the parent
      then lets go with nothing stored. The release first shows the closed
      internal state, then the storage check opens the gate again: what is shown
      ends where it started, yet both renders changed it, so the message is gone. */
  method ReleasedGateClearsError() returns (openAfter: bool, error: Option<string>)
    ensures openAfter && error.None?
  {
    var w := new Window();
    var gate := new Gate(w, DefaultProps.(rememberVerification := true), Some(true));
    gate.HandleBirthdateVerification(text => None, Date(2000, 1, 1), Resolved);
    assert gate.error == Some(EmptyBirthdateMessage);
    assert GetStoredVerification(w, DefaultProps.storageKey, DefaultProps.storageType) == None;
    gate.SetOpenProp(None);
    openAfter, error := gate.EffectiveOpen(), gate.error;
  }

  /** A non-blank birth date the host parses to exactly 25 years before today,
      against a minimum age of 21, verifies with age 25. */
  method TwentyFiveYearOld(today: Date, birthText: string) returns (call: Option<Call>)
    requires Trim(birthText) != ""
    ensures call == Some(Verified(Some(25)))
  {
    var w := new Window();
    var gate := new Gate(w, DefaultProps.(minimumAge := 21, hasOnVerified := true), Some(true));
    gate.SetBirthdate(birthText);
    var birth := Date(today.year - 25, today.month, today.day);
    AgeOnAnniversary(birth, 25);
    assert Date(birth.year + 25, birth.month, birth.day) == today;
    var parse := text => if text == birthText then Some(birth) else None;
    assert parse(birthText) == Some(birth);
    gate.HandleBirthdateVerification(parse, today, Resolved);
    call := if |gate.calls| > 0 then Some(gate.calls[0]) else None;
  }

}
