/** The text hashed into a response's cache key: every variable part carries its length. */
module Fingerprint {
  import opened Text
  import opened VaryPolicy

  /** Header values a request sends under each canonical field name. */
  type Headers = map<string, seq<string>>

  /** Fields are looked up in any spelling. */
  function Values(request: Headers, field: string): seq<string> {
    var name := Canonical(field);
    if name in request then request[name] else []
  }

  type BaseKey = key: string | |key| == 16 witness "0123456789abcdef"

  const DOMAIN := "swarmlite-http-cache-entry-v1"

  function Part(value: string): string {
    Decimal(|value|) + ":" + value
  }

  function Parts(values: seq<string>): string {
    if values == [] then "" else Part(values[0]) + Parts(values[1..])
  }

  function Field(name: string, values: seq<string>): string {
    Part(name) + Part(Decimal(|values|)) + Parts(values)
  }

  function RequestText(request: Headers, fields: seq<string>): string {
    if fields == [] then ""
    else Field(Canonical(fields[0]), Values(request, fields[0])) + RequestText(request, fields[1..])
  }

  function EntryText(base: BaseKey, generation: nat, request: Headers, fields: seq<string>): string {
    DOMAIN + base + Part(Decimal(generation)) + RequestText(request, fields)
  }

  method WriteValues(written: string, values: seq<string>) returns (text: string)
    ensures text == written + Parts(values)
  {
    text := written;
    assert values[0..] == values;
    for j := 0 to |values|
      invariant text + Parts(values[j..]) == written + Parts(values)
    {
      PartsStep(text, values, j);
      text := text + Part(values[j]);
    }
    assert values[|values|..] == [];
  }

  lemma {:induction false} PartsStep(text: string, values: seq<string>, j: nat)
    requires j < |values|
    ensures text + Parts(values[j..]) == text + Part(values[j]) + Parts(values[j + 1..])
  {
    assert values[j..][0] == values[j] && values[j..][1..] == values[j + 1..];
  }

  /** Writes the request's part of the text field by field and value by value. */
  method WriteRequest(request: Headers, fields: seq<string>) returns (text: string)
    ensures text == RequestText(request, fields)
  {
    text := "";
    assert fields[0..] == fields;
    for i := 0 to |fields|
      invariant text + RequestText(request, fields[i..]) == RequestText(request, fields)
    {
      var values := Values(request, fields[i]);
      RequestStep(text, request, fields, i);
      text := text + Part(Canonical(fields[i]));
      text := text + Part(Decimal(|values|));
      text := WriteValues(text, values);
    }
    assert fields[|fields|..] == [];
  }

  lemma {:induction false} RequestStep(text: string, request: Headers, fields: seq<string>, i: nat)
    requires i < |fields|
    ensures var values := Values(request, fields[i]);
      text + RequestText(request, fields[i..])
      == text + Part(Canonical(fields[i])) + Part(Decimal(|values|)) + Parts(values) + RequestText(request, fields[i + 1..])
  {
    var values, rest := Values(request, fields[i]), RequestText(request, fields[i + 1..]);
    assert fields[i..][0] == fields[i] && fields[i..][1..] == fields[i + 1..];
    Reassociate(text, Part(Canonical(fields[i])), Part(Decimal(|values|)), Parts(values), rest);
  }

  lemma {:induction false} Reassociate(a: string, b: string, c: string, d: string, e: string)
    ensures a + (b + c + d + e) == a + b + c + d + e
  {
  }

  // ----- the text determines its parts -----

  function NumberOf(digits: string): int {
    if digits == "" then 0 else 10 * NumberOf(digits[..|digits| - 1]) + (digits[|digits| - 1] as int - '0' as int)
  }

  lemma {:induction false} DecimalValue(n: nat)
    ensures NumberOf(Decimal(n)) == n && ':' !in Decimal(n)
  {
    if n >= 10 {
      DecimalValue(n / 10);
      assert Decimal(n)[..|Decimal(n)| - 1] == Decimal(n / 10);
    } else {
      assert Decimal(n)[..0] == "";
    }
  }

  lemma {:induction false} DecimalInjective(m: nat, n: nat)
    ensures Decimal(m) == Decimal(n) ==> m == n
  {
    DecimalValue(m);
    DecimalValue(n);
  }

  lemma {:induction false} ColonSplits(a: string, b: string, x: string, y: string)
    requires ':' !in a && ':' !in b && a + ":" + x == b + ":" + y
    ensures a == b && x == y
  {
    var s, t := a + ":" + x, b + ":" + y;
    assert a != "" ==> s[0] == a[0];
    assert b != "" ==> t[0] == b[0];
    assert a == "" ==> s[0] == ':';
    assert b == "" ==> t[0] == ':';
    if a != "" {
      assert b != "";
      assert s[1..] == a[1..] + ":" + x;
      assert t[1..] == b[1..] + ":" + y;
      ColonSplits(a[1..], b[1..], x, y);
      assert a == [a[0]] + a[1..] && b == [b[0]] + b[1..];
    } else {
      assert s[1..] == x && t[1..] == y;
    }
  }

  lemma {:induction false} PartSplits(v: string, w: string, x: string, y: string)
    requires Part(v) + x == Part(w) + y
    ensures v == w && x == y
  {
    DecimalValue(|v|);
    DecimalValue(|w|);
    assert Part(v) + x == Decimal(|v|) + ":" + (v + x);
    assert Part(w) + y == Decimal(|w|) + ":" + (w + y);
    ColonSplits(Decimal(|v|), Decimal(|w|), v + x, w + y);
    assert (v + x)[..|v|] == v && (w + y)[..|w|] == w;
    assert (v + x)[|v|..] == x && (w + y)[|w|..] == y;
  }

  lemma {:induction false} PartsSplit(v: seq<string>, w: seq<string>, x: string, y: string)
    requires |v| == |w| && Parts(v) + x == Parts(w) + y
    ensures v == w && x == y
  {
    if v == [] {
      assert Parts(v) + x == x && Parts(w) + y == y;
    } else {
      assert Parts(v) + x == Part(v[0]) + (Parts(v[1..]) + x);
      assert Parts(w) + y == Part(w[0]) + (Parts(w[1..]) + y);
      PartSplits(v[0], w[0], Parts(v[1..]) + x, Parts(w[1..]) + y);
      PartsSplit(v[1..], w[1..], x, y);
      assert v == [v[0]] + v[1..] && w == [w[0]] + w[1..];
    }
  }

  lemma {:induction false} FieldOpens(m: string, v: seq<string>, x: string)
    ensures Field(m, v) + x == Part(m) + (Part(Decimal(|v|)) + (Parts(v) + x))
  {
    Regroup(Part(m), Part(Decimal(|v|)), Parts(v), x);
  }

  lemma {:induction false} Regroup(a: string, b: string, c: string, d: string)
    ensures a + b + c + d == a + (b + (c + d))
  {
  }

  lemma {:induction false} FieldSplits(m: string, v: seq<string>, n: string, w: seq<string>, x: string, y: string)
    requires Field(m, v) + x == Field(n, w) + y
    ensures m == n && v == w && x == y
  {
    FieldOpens(m, v, x);
    FieldOpens(n, w, y);
    PartSplits(m, n, Part(Decimal(|v|)) + (Parts(v) + x), Part(Decimal(|w|)) + (Parts(w) + y));
    PartSplits(Decimal(|v|), Decimal(|w|), Parts(v) + x, Parts(w) + y);
    DecimalInjective(|v|, |w|);
    PartsSplit(v, w, x, y);
  }

  /** The same fields in the same order, whatever their spelling. */
  ghost predicate SameFields(fields: seq<string>, others: seq<string>) {
    |fields| == |others| && forall i :: 0 <= i < |fields| ==> Canonical(fields[i]) == Canonical(others[i])
  }

  ghost predicate SameValues(r: Headers, s: Headers, fields: seq<string>) {
    forall field :: field in fields ==> Values(r, field) == Values(s, field)
  }

  lemma {:induction false} SameHead(r: Headers, s: Headers, fields: seq<string>, others: seq<string>)
    requires fields != [] && others != []
    ensures SameFields(fields, others) <==>
            Canonical(fields[0]) == Canonical(others[0]) && SameFields(fields[1..], others[1..])
    ensures SameValues(r, s, fields) <==>
            Values(r, fields[0]) == Values(s, fields[0]) && SameValues(r, s, fields[1..])
  {
    if SameFields(fields, others) {
      forall i | 0 <= i < |fields[1..]| ensures Canonical(fields[1..][i]) == Canonical(others[1..][i]) {
        assert fields[1..][i] == fields[i + 1] && others[1..][i] == others[i + 1];
      }
    }
    if Canonical(fields[0]) == Canonical(others[0]) && SameFields(fields[1..], others[1..]) {
      forall i | 0 <= i < |fields| ensures Canonical(fields[i]) == Canonical(others[i]) {
        if i > 0 { assert fields[i] == fields[1..][i - 1] && others[i] == others[1..][i - 1]; }
      }
    }
    assert fields == [fields[0]] + fields[1..];
  }

  /** Which values a field list names does not depend on its spelling. */
  lemma {:induction false} SpellingIsFree(r: Headers, s: Headers, fields: seq<string>, others: seq<string>)
    requires SameFields(fields, others)
    ensures SameValues(r, s, fields) <==> SameValues(r, s, others)
  {
    if fields != [] {
      SameHead(r, s, fields, others);
      SameHead(r, s, others, fields);
      SpellingIsFree(r, s, fields[1..], others[1..]);
    }
  }

  lemma {:induction false} RequestTextInjective(r: Headers, fields: seq<string>, s: Headers, others: seq<string>)
    requires RequestText(r, fields) == RequestText(s, others)
    ensures SameFields(fields, others) && SameValues(r, s, fields)
  {
    if fields != [] {
      assert RequestText(r, fields) != "";
      assert others != [];
      FieldSplits(Canonical(fields[0]), Values(r, fields[0]), Canonical(others[0]), Values(s, others[0]),
                  RequestText(r, fields[1..]), RequestText(s, others[1..]));
      RequestTextInjective(r, fields[1..], s, others[1..]);
      SameHead(r, s, fields, others);
    } else {
      assert others != [] ==> RequestText(s, others) != "";
    }
  }

  lemma {:induction false} SameRequestSameText(r: Headers, fields: seq<string>, s: Headers, others: seq<string>)
    requires SameFields(fields, others) && SameValues(r, s, fields)
    ensures RequestText(r, fields) == RequestText(s, others)
  {
    if fields != [] {
      SameHead(r, s, fields, others);
      SameRequestSameText(r, fields[1..], s, others[1..]);
    }
  }

  lemma {:induction false} FixedSplits(v: string, w: string, x: string, y: string)
    requires |v| == |w| && v + x == w + y
    ensures v == w && x == y
  {
    assert (v + x)[..|v|] == v && (w + y)[..|w|] == w;
    assert (v + x)[|v|..] == x && (w + y)[|w|..] == y;
  }

  lemma {:induction false} EntryTextSplits(d: string, b: BaseKey, c: BaseKey, v: string, w: string, x: string,
          y: string)
    requires d + b + Part(v) + x == d + c + Part(w) + y
    ensures b == c && v == w && x == y
  {
    assert d + b + Part(v) + x == d + (b + (Part(v) + x));
    assert d + c + Part(w) + y == d + (c + (Part(w) + y));
    FixedSplits(d, d, b + (Part(v) + x), c + (Part(w) + y));
    FixedSplits(b, c, Part(v) + x, Part(w) + y);
    PartSplits(v, w, x, y);
  }

  /** Two texts are equal exactly when base, generation, fields and the request's values for them agree. */
  lemma {:induction false} EntryTextInjective(b: BaseKey, g: nat, r: Headers, fields: seq<string>,
                           c: BaseKey, h: nat, s: Headers, others: seq<string>)
    ensures EntryText(b, g, r, fields) == EntryText(c, h, s, others)
            <==> b == c && g == h && SameFields(fields, others) && SameValues(r, s, fields)
  {
    if EntryText(b, g, r, fields) == EntryText(c, h, s, others) {
      EntryTextSplits(DOMAIN, b, c, Decimal(g), Decimal(h), RequestText(r, fields), RequestText(s, others));
      DecimalInjective(g, h);
      RequestTextInjective(r, fields, s, others);
    }
    if SameFields(fields, others) && SameValues(r, s, fields) { SameRequestSameText(r, fields, s, others); }
  }
}
