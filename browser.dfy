/** The part of the browser the widgets read and write: `localStorage`,
    `sessionStorage` and the cookie jar behind `document.cookie`. Storage areas
    are maps from key to string. The jar keeps name/value pairs in creation
    order, each name once, and renders them the way `document.cookie` reads. */
module Browser {
  import opened Common

  /** A cookie name as the jar keeps it: non-empty, without `;` or `=`. */
  predicate CookieName(n: string)
  {
    n != "" && ';' !in n && '=' !in n
  }

  /** A cookie value as the jar keeps it: without `;`. */
  predicate CookieValue(v: string)
  {
    ';' !in v
  }

  predicate WellFormedJar(jar: Entries)
  {
    && DistinctKeys(jar)
    && forall i :: 0 <= i < |jar| ==> CookieName(jar[i].0) && CookieValue(jar[i].1)
  }

  /** `"; name=value"` for every cookie, concatenated. */
  function Segments(jar: Entries): (s: string)
    ensures s == "" || s[0] == ';'
  {
    if jar == [] then "" else "; " + jar[0].0 + "=" + jar[0].1 + Segments(jar[1..])
  }

  lemma {:induction false} SegmentsAppend(a: Entries, b: Entries)
    ensures Segments(a + b) == Segments(a) + Segments(b)
  {
    if a != [] {
      assert (a + b)[1..] == a[1..] + b;
      SegmentsAppend(a[1..], b);
    } else {
      assert a + b == b;
    }
  }

  /** Reading `document.cookie`: the pairs `name=value` joined by `"; "`. */
  function CookieHeader(jar: Entries): (h: string)
    ensures jar != [] ==> "; " + h == Segments(jar)
    ensures jar == [] ==> h == ""
  {
    if jar == [] then "" else Segments(jar)[2..]
  }

  /** Assigning `document.cookie = s`: the pair before the first `;` is split at
      its first `=` into name and value and stored; a pair without `=` or with an
      empty name leaves the jar as it is. The attributes after the pair (expiry,
      scope, flags) do not change the jar in this model. */
  function StoreCookie(jar: Entries, s: string): Entries
  {
    var pair := TakeUntil(s, ';');
    match IndexOf(pair, "=")
    case None => jar
    case Some(i) => if i == 0 then jar else Assign(jar, pair[..i], pair[i + 1..])
  }

  /** Storing a cookie keeps the jar well formed. */
  lemma StoreCookieWellFormed(jar: Entries, s: string)
    requires WellFormedJar(jar)
    ensures WellFormedJar(StoreCookie(jar, s))
  {
    var pair := TakeUntil(s, ';');
    match IndexOf(pair, "=") {
      case None =>
      case Some(i) =>
        if i != 0 {
          var name, value := pair[..i], pair[i + 1..];
          FirstCharBefore(pair, '=', i);
          assert CookieName(name) && CookieValue(value) by {
            assert forall k :: 0 <= k < |name| ==> name[k] == pair[k];
            assert forall k :: 0 <= k < |value| ==> value[k] == pair[i + 1 + k];
          }
          AssignWellFormed(jar, name, value);
        }
    }
  }

  /** Assigning a well-formed pair keeps the jar well formed. */
  lemma AssignWellFormed(jar: Entries, name: string, value: string)
    requires WellFormedJar(jar) && CookieName(name) && CookieValue(value)
    ensures WellFormedJar(Assign(jar, name, value))
  {
    AssignKeys(jar, name, value);
    AssignEntries(jar, name, value);
  }

  datatype StorageArea = LocalStorage | SessionStorage

  class Window {
    var local: map<string, string>
    var session: map<string, string>
    var jar: Entries

    ghost predicate Valid()
      reads this
    {
      WellFormedJar(jar)
    }

    /** A fresh page: empty storage and no cookies. */
    constructor()
      ensures local == map[] && session == map[] && jar == []
      ensures Valid()
    {
      local := map[];
      session := map[];
      jar := [];
    }

    /** `storage.getItem(key)`, with `null` as None. */
    function GetItem(area: StorageArea, key: string): (r: Option<string>)
      reads this
      ensures area == LocalStorage ==> (r.Some? <==> key in local) && (key in local ==> r.value == local[key])
      ensures area == SessionStorage ==> (r.Some? <==> key in session) && (key in session ==> r.value == session[key])
    {
      var m := if area == LocalStorage then local else session;
      if key in m then Some(m[key]) else None
    }

    /** `storage.setItem(key, value)`. */
    method SetItem(area: StorageArea, key: string, value: string)
      modifies this
      ensures area == LocalStorage ==> local == old(local)[key := value] && session == old(session)
      ensures area == SessionStorage ==> session == old(session)[key := value] && local == old(local)
      ensures jar == old(jar)
    {
      if area == LocalStorage {
        local := local[key := value];
      } else {
        session := session[key := value];
      }
    }

    /** `document.cookie` as a string. */
    function Cookie(): string
      reads this
    {
      CookieHeader(jar)
    }

    /** `document.cookie = s`. */
    method WriteCookie(s: string)
      requires Valid()
      modifies this
      ensures Valid()
      ensures jar == StoreCookie(old(jar), s)
      ensures local == old(local) && session == old(session)
    {
      StoreCookieWellFormed(jar, s);
      jar := StoreCookie(jar, s);
    }
  }
}
