/** The browser state the analytics layer reads and writes: the cookie jar
    behind `document.cookie`, `localStorage` and the per-tab
    `sessionStorage`. */
module Browser {
  import opened Wrappers
  import opened Text

  datatype Cookie = Cookie(name: string, value: string)

  /** A name the code writes: non-empty, not starting with a blank, and
      free of the `;` and `=` that delimit cookies. */
  predicate WellFormedName(n: string) {
    n != [] && n[0] != ' ' && ';' !in n && '=' !in n
  }

  /** The jar as a browser keeps it: well-formed names, at most one cookie
      per name, and values that stop before the first `;`. */
  predicate WellFormedJar(jar: seq<Cookie>) {
    && (forall i :: 0 <= i < |jar| ==> WellFormedName(jar[i].name) && ';' !in jar[i].value)
    && (forall i, j :: 0 <= i < j < |jar| ==> jar[i].name != jar[j].name)
  }

  function Entry(c: Cookie): string {
    c.name + "=" + c.value
  }

  /** The pieces of `document.cookie` between the `;` separators: every
      cookie after the first is preceded by one blank. */
  function Pieces(jar: seq<Cookie>): (ps: seq<string>)
    ensures |ps| == |jar|
  {
    seq(|jar|, i requires 0 <= i < |jar| => (if i == 0 then "" else " ") + Entry(jar[i]))
  }

  /** Reading `document.cookie`: `name=value` pairs joined by `"; "`. */
  function Render(jar: seq<Cookie>): string {
    if jar == [] then "" else Join(Pieces(jar), ';')
  }

  /** The value a cookie write stores: the text before the first `;`
      (what follows is read as cookie attributes). */
  function CutValue(v: string): (r: string)
    ensures ';' !in r
    ensures ';' !in v ==> r == v
  {
    v[..IndexOf(v, ';')]
  }

  /** `document.cookie = name + "=" + value + ";expires=...;path=/"`: an
      existing cookie of that name keeps its place and takes the new value;
      otherwise the cookie is added at the end. */
  function SetJar(jar: seq<Cookie>, name: string, value: string): (r: seq<Cookie>)
    ensures |r| == |jar| || |r| == |jar| + 1
  {
    if jar == [] then [Cookie(name, CutValue(value))]
    else if jar[0].name == name then [Cookie(name, CutValue(value))] + jar[1..]
    else [jar[0]] + SetJar(jar[1..], name, value)
  }

  /** The value the jar holds for `name`. */
  function JarGet(jar: seq<Cookie>, name: string): Option<string> {
    if jar == [] then None
    else if jar[0].name == name then Some(jar[0].value)
    else JarGet(jar[1..], name)
  }

  /** The loop `while (c.charAt(0) === ' ') c = c.substring(1)`. */
  function StripBlanks(c: string): (r: string)
    ensures |r| <= |c| && r == c[|c| - |r|..]
    ensures r == [] || r[0] != ' '
  {
    if c != [] && c[0] == ' ' then StripBlanks(c[1..]) else c
  }

  /** The first piece that, once its leading blanks are stripped, starts
      with `nameEQ`, and the text after `nameEQ` in it. */
  function CookieLookup(parts: seq<string>, nameEQ: string): Option<string> {
    if parts == [] then None
    else
      var c := StripBlanks(parts[0]);
      if StartsWith(c, nameEQ) then Some(c[|nameEQ|..]) else CookieLookup(parts[1..], nameEQ)
  }

  /** What `getCookie(name)` returns for a given `document.cookie` text. */
  function CookieValue(cookie: string, name: string): Option<string> {
    CookieLookup(Split(cookie, ';'), name + "=")
  }

  /** `getCookie`: split the cookie text at `;`, strip the blanks in front of
      each piece and return the rest of the first piece that starts with
      `name=`. */
  method GetCookie(cookie: string, name: string) returns (r: Option<string>)
    ensures r == CookieValue(cookie, name)
  {
    var nameEQ := name + "=";
    var ca := Split(cookie, ';');
    var i := 0;
    while i < |ca|
      invariant 0 <= i <= |ca|
      invariant CookieLookup(ca, nameEQ) == CookieLookup(ca[i..], nameEQ)
    {
      var c := StripLeadingBlanks(ca[i]);
      LookupStep(ca, i, nameEQ);
      if StartsWith(c, nameEQ) {
        return Some(c[|nameEQ|..]);
      }
      i := i + 1;
    }
    return None;
  }

  lemma LookupStep(ca: seq<string>, i: int, nameEQ: string)
    requires 0 <= i < |ca|
    ensures CookieLookup(ca[i..], nameEQ) ==
      var c := StripBlanks(ca[i]);
      if StartsWith(c, nameEQ) then Some(c[|nameEQ|..]) else CookieLookup(ca[i + 1..], nameEQ)
  {
    assert ca[i..][0] == ca[i];
    assert ca[i..][1..] == ca[i + 1..];
  }

  /** The inner loop of `getCookie`. */
  method StripLeadingBlanks(piece: string) returns (c: string)
    ensures c == StripBlanks(piece)
  {
    c := piece;
    while c != [] && c[0] == ' '
      invariant StripBlanks(c) == StripBlanks(piece)
      decreases |c|
    {
      c := c[1..];
    }
  }

  // ---------------------------------------------------------------------
  // Reading back what was written

  /** A piece `name=value` starts with `key=` exactly when the names agree. */
  lemma EntryMatch(c: Cookie, key: string)
    requires WellFormedName(c.name) && WellFormedName(key)
    ensures StartsWith(Entry(c), key + "=") <==> c.name == key
    ensures c.name == key ==> Entry(c)[|key + "="|..] == c.value
  {
    var e, k := Entry(c), key + "=";
    if |key| < |c.name| {
      assert e[|key|] == c.name[|key|] != '=' == k[|key|];
    } else if |key| > |c.name| {
      assert e[|c.name|] == '=' != key[|c.name|] == k[|c.name|];
    } else if c.name != key {
      assert e[..|key|] == c.name;
      assert k[..|key|] == key;
    }
  }

  lemma {:induction false} LookupPieces(jar: seq<Cookie>, parts: seq<string>, name: string)
    requires WellFormedJar(jar) && WellFormedName(name)
    requires |parts| == |jar|
    requires forall i :: 0 <= i < |jar| ==> StripBlanks(parts[i]) == Entry(jar[i])
    ensures CookieLookup(parts, name + "=") == JarGet(jar, name)
  {
    if jar != [] {
      EntryMatch(jar[0], name);
      LookupPieces(jar[1..], parts[1..], name);
    }
  }

  lemma StripPiece(jar: seq<Cookie>, i: int)
    requires WellFormedJar(jar) && 0 <= i < |jar|
    ensures StripBlanks(Pieces(jar)[i]) == Entry(jar[i])
  {
    var e := Entry(jar[i]);
    assert e[0] == jar[i].name[0] != ' ';
    if i > 0 {
      assert (" " + e)[1..] == e;
    }
  }

  /** Reading `document.cookie` with `getCookie` returns exactly the value the
      jar holds for that name. */
  lemma CookieValueOfJar(jar: seq<Cookie>, name: string)
    requires WellFormedJar(jar) && WellFormedName(name)
    ensures CookieValue(Render(jar), name) == JarGet(jar, name)
  {
    if jar == [] {
      assert Split("", ';') == [""];
      assert StripBlanks("") == "";
      assert !StartsWith("", name + "=");
      assert [""][1..] == [];
      assert CookieLookup([""], name + "=") == CookieLookup([], name + "=") == None;
      assert Render(jar) == "";
    } else {
      var ps := Pieces(jar);
      forall i | 0 <= i < |ps| ensures ';' !in ps[i] {
        assert ps[i] == (if i == 0 then "" else " ") + Entry(jar[i]);
      }
      SplitJoin(ps, ';');
      forall i | 0 <= i < |jar| ensures StripBlanks(ps[i]) == Entry(jar[i]) {
        StripPiece(jar, i);
      }
      LookupPieces(jar, ps, name);
    }
  }

  lemma {:induction false} SetJarGet(jar: seq<Cookie>, name: string, value: string, other: string)
    ensures JarGet(SetJar(jar, name, value), name) == Some(CutValue(value))
    ensures other != name ==> JarGet(SetJar(jar, name, value), other) == JarGet(jar, other)
  {
    if jar != [] && jar[0].name != name {
      SetJarGet(jar[1..], name, value, other);
    }
  }

  lemma {:induction false} SetJarNames(jar: seq<Cookie>, name: string, value: string)
    ensures forall c :: c in SetJar(jar, name, value) ==> c.name == name || c in jar
    ensures forall c :: c in jar && c.name != name ==> c in SetJar(jar, name, value)
    ensures name !in Names(jar) ==> SetJar(jar, name, value) == jar + [Cookie(name, CutValue(value))]
  {
    if jar != [] && jar[0].name != name {
      SetJarNames(jar[1..], name, value);
    }
  }

  function Names(jar: seq<Cookie>): set<string> {
    set c | c in jar :: c.name
  }

  /** A cookie write keeps the jar well formed. */
  lemma {:induction false} SetJarWellFormed(jar: seq<Cookie>, name: string, value: string)
    requires WellFormedJar(jar) && WellFormedName(name)
    ensures WellFormedJar(SetJar(jar, name, value))
  {
    var c := Cookie(name, CutValue(value));
    if jar == [] {
      ConsWellFormed(c, []);
      assert [c] + [] == [c];
    } else if jar[0].name == name {
      TailWellFormed(jar);
      assert forall k :: 0 <= k < |jar[1..]| ==> jar[1..][k] == jar[k + 1];
      ConsWellFormed(c, jar[1..]);
    } else {
      var tail := SetJar(jar[1..], name, value);
      TailWellFormed(jar);
      SetJarWellFormed(jar[1..], name, value);
      HeadNameFresh(jar, name, value);
      assert WellFormedName(jar[0].name) && ';' !in jar[0].value;
      ConsWellFormed(jar[0], tail);
    }
  }

  /** The head's name differs from every name in the written tail. */
  lemma HeadNameFresh(jar: seq<Cookie>, name: string, value: string)
    requires WellFormedJar(jar) && jar != [] && jar[0].name != name
    ensures forall k :: 0 <= k < |SetJar(jar[1..], name, value)| ==> SetJar(jar[1..], name, value)[k].name != jar[0].name
  {
    var tail := SetJar(jar[1..], name, value);
    SetJarNames(jar[1..], name, value);
    forall k | 0 <= k < |tail| ensures tail[k].name != jar[0].name {
      assert tail[k] in tail;
      if tail[k].name != name {
        var j :| 0 <= j < |jar[1..]| && jar[1..][j] == tail[k];
        assert jar[j + 1] == tail[k];
      }
    }
  }

  lemma TailWellFormed(jar: seq<Cookie>)
    requires WellFormedJar(jar) && jar != []
    ensures WellFormedJar(jar[1..])
  {
    var t := jar[1..];
    assert forall k :: 0 <= k < |t| ==> t[k] == jar[k + 1];
  }

  /** A well-formed cookie in front of a jar that lacks its name. */
  lemma ConsWellFormed(c: Cookie, rest: seq<Cookie>)
    requires WellFormedName(c.name) && ';' !in c.value && WellFormedJar(rest)
    requires forall k :: 0 <= k < |rest| ==> rest[k].name != c.name
    ensures WellFormedJar([c] + rest)
  {
    var r := [c] + rest;
    assert forall k :: 1 <= k < |r| ==> r[k] == rest[k - 1];
  }

  /** The browser storage of one page. */
  class Storage {
    var jar: seq<Cookie>
    var local: map<string, string>
    var tab: map<string, string>

    predicate Valid()
      reads this
    {
      WellFormedJar(jar)
    }

    constructor(jar0: seq<Cookie>, local0: map<string, string>, tab0: map<string, string>)
      requires WellFormedJar(jar0)
      ensures Valid()
      ensures jar == jar0 && local == local0 && tab == tab0
    {
      jar, local, tab := jar0, local0, tab0;
    }

    /** `document.cookie` as a script reads it. */
    function DocumentCookie(): string
      reads this
    {
      Render(jar)
    }

    /** `getCookie(name)` on this page's `document.cookie`: the jar's value
        for that name. */
    method ReadCookie(name: string) returns (r: Option<string>)
      requires Valid() && WellFormedName(name)
      ensures r == JarGet(jar, name)
    {
      CookieValueOfJar(jar, name);
      r := GetCookie(DocumentCookie(), name);
    }

    method SetCookie(name: string, value: string)
      requires Valid() && WellFormedName(name)
      modifies this
      ensures Valid()
      ensures jar == SetJar(old(jar), name, value)
      ensures local == old(local) && tab == old(tab)
    {
      SetJarWellFormed(jar, name, value);
      jar := SetJar(jar, name, value);
    }

    method GetItem(key: string) returns (r: Option<string>)
      ensures r == Get(local, key)
    {
      r := Get(local, key);
    }

    method SetItem(key: string, value: string)
      modifies this
      ensures local == old(local)[key := value]
      ensures jar == old(jar) && tab == old(tab)
    {
      local := local[key := value];
    }

    method RemoveItem(key: string)
      modifies this
      ensures local == old(local) - {key}
      ensures jar == old(jar) && tab == old(tab)
    {
      local := local - {key};
    }

    method SetTabItem(key: string, value: string)
      modifies this
      ensures tab == old(tab)[key := value]
      ensures jar == old(jar) && local == old(local)
    {
      tab := tab[key := value];
    }
  }
}
