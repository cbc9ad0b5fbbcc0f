/** The Vary field list of a response: canonical names, each once, in order. */
module VaryPolicy {
  import opened Wrappers
  import opened Ordering
  import opened Text

  predicate Upper(c: char) { 'A' <= c <= 'Z' }

  predicate Lower(c: char) { 'a' <= c <= 'z' }

  predicate TokenChar(c: char) {
    Upper(c) || Lower(c) || '0' <= c <= '9' || c in "!#$%&'*+-.^_`|~"
  }

  predicate Token(s: string) { forall i :: 0 <= i < |s| ==> TokenChar(s[i]) }

  predicate ValidName(name: string) { name != "" && Token(name) }

  function ToUpper(c: char): char { if Lower(c) then (c as int - 32) as char else c }

  function ToLower(c: char): char { if Upper(c) then (c as int + 32) as char else c }

  /** Capitals at the start and after each hyphen, small letters elsewhere. */
  function Capitalised(s: string, start: bool): string {
    if s == "" then ""
    else [if start then ToUpper(s[0]) else ToLower(s[0])] + Capitalised(s[1..], s[0] == '-')
  }

  /** A name with a character that no field name may have is left as it is. */
  function Canonical(name: string): string {
    if Token(name) then Capitalised(name, true) else name
  }

  function Folded(s: string): string {
    if s == "" then "" else [ToLower(s[0])] + Folded(s[1..])
  }

  lemma {:induction false} CapitalisedFolds(s: string, start: bool)
    ensures Folded(Capitalised(s, start)) == Folded(s) && |Capitalised(s, start)| == |s|
    ensures Capitalised(Folded(s), start) == Capitalised(s, start)
    ensures Token(s) ==> Token(Capitalised(s, start))
  {
    if s != "" {
      CapitalisedFolds(s[1..], s[0] == '-');
      var c := Capitalised(s, start);
      assert c[1..] == Capitalised(s[1..], s[0] == '-') && Folded(s)[1..] == Folded(s[1..]);
      if Token(s) {
        assert Token(s[1..]);
        forall i | 0 <= i < |c| ensures TokenChar(c[i]) {
          if i > 0 { assert c[i] == c[1..][i - 1]; }
        }
      }
    }
  }

  /** Two valid names have the same canonical form exactly when they differ in case only. */
  lemma {:induction false} CanonicalIgnoresCase(a: string, b: string)
    requires ValidName(a) && ValidName(b)
    ensures Canonical(a) == Canonical(b) <==> Folded(a) == Folded(b)
  {
    CapitalisedFolds(a, true);
    CapitalisedFolds(b, true);
  }

  /** Names that are already canonical stay as they are. */
  lemma {:induction false} CanonicalIdempotent(name: string)
    ensures Canonical(Canonical(name)) == Canonical(name)
  {
    if Token(name) {
      CapitalisedFolds(name, true);
      CapitalisedFolds(Capitalised(name, true), true);
    }
  }

  /** A character of a field name is a visible one that is not a delimiter: section 5.6.2 of RFC 9110. */
  lemma {:induction false} TokenCharExactly(c: char)
    ensures TokenChar(c) <==> 33 <= c as int <= 126 && c !in "\"(),/:;<=>?@[\\]{}"
  {
  }

  // ----- the header -----

  /** The comma-separated parts of one header value. */
  function Parts(value: string): seq<string> {
    if ',' !in value then [value]
    else
      var k := Comma(value);
      [value[..k]] + Parts(value[k + 1..])
  }

  function Comma(value: string): (k: nat)
    requires ',' in value
    ensures k < |value|
  {
    if value[0] == ',' then 0 else 1 + Comma(value[1..])
  }

  /** The parts joined by commas. */
  function Separated(parts: seq<string>): string
    requires parts != []
  {
    if |parts| == 1 then parts[0] else parts[0] + "," + Separated(parts[1..])
  }

  lemma {:induction false} CommaIsFirst(value: string)
    requires ',' in value
    ensures value[Comma(value)] == ',' && ',' !in value[..Comma(value)]
  {
    if value[0] != ',' {
      assert value == [value[0]] + value[1..];
      CommaIsFirst(value[1..]);
      assert value[..Comma(value)] == [value[0]] + value[1..][..Comma(value) - 1];
    }
  }

  /** The parts are the pieces of the value between its commas. */
  lemma {:induction false} PartsExactly(value: string)
    ensures Parts(value) != [] && Separated(Parts(value)) == value
    ensures forall i :: 0 <= i < |Parts(value)| ==> ',' !in Parts(value)[i]
  {
    if ',' in value {
      var k := Comma(value);
      CommaIsFirst(value);
      PartsExactly(value[k + 1..]);
      assert value == value[..k] + "," + value[k + 1..];
      assert Parts(value)[1..] == Parts(value[k + 1..]);
    }
  }

  /** The fields a response lists, over all its Vary headers. */
  function Listed(values: seq<string>): set<string> {
    set i, part | 0 <= i < |values| && part in Parts(values[i]) && Trim(part) != "" :: Trim(part)
  }

  predicate Usable(field: string) { field != "*" && ValidName(field) }

  function Forms(fields: set<string>): set<string> {
    set field | field in fields :: Canonical(field)
  }

  lemma {:induction false} FormsUnion(a: set<string>, b: set<string>)
    ensures Forms(a + b) == Forms(a) + Forms(b)
  {
  }

  function Names(values: seq<string>, configured: seq<string>): set<string> {
    (set field | field in configured :: Canonical(field)) + Forms(Listed(values))
  }

  /** None when the response may not be cached. */
  ghost function Policy(values: seq<string>, configured: seq<string>): Option<seq<string>> {
    if forall field :: field in Listed(values) ==> Usable(field) then Some(Ordered(Names(values, configured))) else None
  }

  lemma {:induction false} ListedMore(values: seq<string>, i: nat, part: string)
    requires i < |values| && part in Parts(values[i]) && Trim(part) != ""
    ensures Trim(part) in Listed(values)
  {
  }

  method ParseValue(value: string, names: set<string>) returns (after: Option<set<string>>)
    ensures var fields := Listed([value]);
      after == if forall field :: field in fields ==> Usable(field)
               then Some(names + Forms(fields)) else None
  {
    var parts := Parts(value);
    var collected := names;
    for i := 0 to |parts|
      invariant forall field :: field in Taken(parts, i) ==> Usable(field)
      invariant collected == names + Forms(Taken(parts, i))
    {
      var field := Trim(parts[i]);
      TakenMore(parts, i);
      TakenForms(parts, i);
      if field != "" {
        if field == "*" || !ValidName(field) {
          ListedMore([value], 0, parts[i]);
          return None;
        }
        collected := collected + {Canonical(field)};
      }
    }
    TakenIsListed(value);
    after := Some(collected);
  }

  /** The fields among the first `n` parts. */
  function Taken(parts: seq<string>, n: nat): set<string>
    requires n <= |parts|
  {
    set i | 0 <= i < n && Trim(parts[i]) != "" :: Trim(parts[i])
  }

  lemma {:induction false} TakenMore(parts: seq<string>, n: nat)
    requires n < |parts|
    ensures Taken(parts, n + 1) == Taken(parts, n) + if Trim(parts[n]) != "" then {Trim(parts[n])} else {}
  {
  }

  lemma {:induction false} TakenForms(parts: seq<string>, n: nat)
    requires n < |parts|
    ensures Forms(Taken(parts, n + 1))
            == Forms(Taken(parts, n)) + if Trim(parts[n]) != "" then {Canonical(Trim(parts[n]))} else {}
  {
    TakenMore(parts, n);
    if Trim(parts[n]) != "" {
      FormsUnion(Taken(parts, n), {Trim(parts[n])});
      assert Forms({Trim(parts[n])}) == {Canonical(Trim(parts[n]))};
    }
  }

  lemma {:induction false} TakenIsListed(value: string)
    ensures Taken(Parts(value), |Parts(value)|) == Listed([value])
  {
    var parts := Parts(value);
    assert [value][0] == value;
    forall part | part in parts && Trim(part) != "" ensures Trim(part) in Taken(parts, |parts|) {
      var i :| 0 <= i < |parts| && parts[i] == part;
      assert Trim(parts[i]) == Trim(part);
    }
  }

  lemma {:induction false} ListedSplits(values: seq<string>, n: nat)
    requires n < |values|
    ensures Listed(values[..n + 1]) == Listed(values[..n]) + Listed([values[n]])
  {
    var front, more := values[..n], values[..n + 1];
    assert forall i :: 0 <= i < n ==> front[i] == more[i];
    assert more[n] == values[n] == [values[n]][0];
    forall f | f in Listed(more) ensures f in Listed(front) + Listed([values[n]]) {
      var i, part :| 0 <= i < |more| && part in Parts(more[i]) && Trim(part) != "" && f == Trim(part);
      if i < n { ListedMore(front, i, part); } else { ListedMore([values[n]], 0, part); }
    }
    forall f | f in Listed(front) + Listed([values[n]]) ensures f in Listed(more) {
      if f in Listed(front) {
        var i, part :| 0 <= i < |front| && part in Parts(front[i]) && Trim(part) != "" && f == Trim(part);
        ListedMore(more, i, part);
      } else {
        var i, part :| 0 <= i < 1 && part in Parts([values[n]][i]) && Trim(part) != "" && f == Trim(part);
        ListedMore(more, n, part);
      }
    }
  }

  /** Collects the configured and the listed fields; a star or an invalid name makes the response uncacheable. */
  method ResponseVaryHeaders(values: seq<string>, configured: seq<string>) returns (r: Option<seq<string>>)
    ensures r == Policy(values, configured)
  {
    var names := set field | field in configured :: Canonical(field);
    ghost var base := names;
    assert Listed(values[..0]) == {};
    for i := 0 to |values|
      invariant forall field :: field in Listed(values[..i]) ==> Usable(field)
      invariant names == base + Forms(Listed(values[..i]))
    {
      ListedSplits(values, i);
      FormsUnion(Listed(values[..i]), Listed([values[i]]));
      var more := ParseValue(values[i], names);
      if more.None? {
        ListedGrows(values, i + 1);
        return None;
      }
      names := more.value;
    }
    assert values[..|values|] == values;
    var fields := SortIds(names);
    r := Some(fields);
  }

  lemma {:induction false} ListedGrows(values: seq<string>, n: nat)
    requires n <= |values|
    ensures Listed(values[..n]) <= Listed(values)
  {
    forall f | f in Listed(values[..n]) ensures f in Listed(values) {
      var i, part :| 0 <= i < n && part in Parts(values[..n][i]) && Trim(part) != "" && f == Trim(part);
      ListedMore(values, i, part);
    }
  }

  /** Two cacheable responses have the same field list exactly when they name the same fields, however they list them. */
  lemma {:induction false} PolicyIsItsNames(a: seq<string>, b: seq<string>, configured: seq<string>)
    requires Policy(a, configured).Some? && Policy(b, configured).Some?
    ensures Policy(a, configured) == Policy(b, configured) <==> Names(a, configured) == Names(b, configured)
  {
    OrderedContents(Names(a, configured));
    OrderedContents(Names(b, configured));
  }

  /** A stored field list is canonical, so canonicalising it again on a lookup changes nothing. */
  lemma {:induction false} PolicyIsCanonical(values: seq<string>, configured: seq<string>, field: string)
    requires Policy(values, configured).Some? && field in Policy(values, configured).value
    ensures Canonical(field) == field
  {
    OrderedContents(Names(values, configured));
    assert field in Elements(Policy(values, configured).value);
    if f :| f in configured && field == Canonical(f) {
      CanonicalIdempotent(f);
    } else {
      var f :| f in Listed(values) && field == Canonical(f);
      CanonicalIdempotent(f);
    }
  }

  /** A part of some header value is this field, apart from white space around it. */
  ghost predicate Lists(values: seq<string>, field: string) {
    field != "" && exists i, part :: 0 <= i < |values| && part in Parts(values[i]) && Trim(part) == field
  }

  lemma {:induction false} ListsExactly(values: seq<string>, field: string)
    ensures field in Listed(values) <==> Lists(values, field)
  {
    if Lists(values, field) {
      var i, part :| 0 <= i < |values| && part in Parts(values[i]) && Trim(part) == field;
      ListedMore(values, i, part);
    }
  }

  predicate Refused(field: string) { field == "*" || exists k :: 0 <= k < |field| && !TokenChar(field[k]) }

  /** A response may not be cached exactly if it lists a star, or a field with a character that no name may have. */
  lemma {:induction false} UncacheableExactly(values: seq<string>, configured: seq<string>)
    ensures Policy(values, configured).None? <==> exists field :: Lists(values, field) && Refused(field)
  {
    forall field ensures field in Listed(values) <==> Lists(values, field) {
      ListsExactly(values, field);
    }
    forall field | field in Listed(values) ensures Usable(field) <==> !Refused(field) {
    }
  }

  /** Otherwise its policy has the canonical form of every configured and every listed field, each once, in order. */
  lemma {:induction false} PolicyExactly(values: seq<string>, configured: seq<string>, name: string)
    requires Policy(values, configured).Some?
    ensures var policy := Policy(values, configured).value;
      && Sorted(policy)
      && (name in policy <==> exists field :: (field in configured || Lists(values, field)) && name == Canonical(field))
  {
    var names := Names(values, configured);
    OrderedContents(names);
    OrderedIsSorted(names);
    assert name in Ordered(names) <==> name in Elements(Ordered(names));
    forall field ensures field in Listed(values) <==> Lists(values, field) {
      ListsExactly(values, field);
    }
  }
}
