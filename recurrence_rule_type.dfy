/**
 * RecurrenceRuleType, the attribute type that stores a recurrence rule in one
 * database string `<type>::k1=v1;k2=v2;...`. `Serialize` writes a rule in that
 * form and `Cast` reads it back (or takes a hash from a request), raising on a
 * malformed string or an unknown type. What the rule classes build from the
 * attribute map (`from_attrs`) and what they hand over as their attributes
 * (`db_serialize`) stay abstract: a cast yields the rule kind and the
 * attribute map, and a rule to serialize is given as its kind and attribute
 * list.
 */
module RecurrenceRuleType {
  import opened Wrappers
  import opened Text

  datatype RuleKind = MonthlyKind | WeeklyKind

  /** The failures `cast` raises. */
  datatype CastError =
    | UnknownRuleType(typeStr: Option<string>)
    | MalformedRuleString(components: nat)

  /** The values `cast` and `serialize` can be handed. */
  datatype Value =
    | Str(s: string)
    /** A HashWithIndifferentAccess, its keys and values as strings. */
    | Hash(entries: map<string, string>)
    /** A Monthly or Weekly rule object with the attribute list it serializes. */
    | RuleObject(kind: RuleKind, attrs: seq<(string, string)>)
    /** nil, numbers and anything else. */
    | Other

  /** What a cast produces: a rule built from an attribute map, or the value itself. */
  datatype CastOutcome =
    | CastRule(kind: RuleKind, attrs: map<string, string>)
    | Unchanged(value: Value)

  function KindName(kind: RuleKind): string {
    match kind
    case MonthlyKind => "monthly"
    case WeeklyKind => "weekly"
  }

  /** resolve_rrule_type: the rule class named by the type string; any other string, or nil, raises. */
  function ResolveRruleType(typeStr: Option<string>): (r: Result<RuleKind, CastError>)
    ensures r.Ok? <==> typeStr == Some("monthly") || typeStr == Some("weekly")
    ensures r.Ok? ==> typeStr == Some(KindName(r.value))
    ensures r.Err? ==> r.error == UnknownRuleType(typeStr)
  {
    if typeStr == Some("monthly") then Ok(MonthlyKind)
    else if typeStr == Some("weekly") then Ok(WeeklyKind)
    else Err(UnknownRuleType(typeStr))
  }

  // ---------------------------------------------------------------------------
  // String#split with a string separator

  predicate Lacks(s: string, c: char) {
    forall i :: 0 <= i < |s| ==> s[i] != c
  }

  /** Every field between occurrences of `sep`, found left to right, empty ones included. */
  function SplitFields(s: string, sep: string): (r: seq<string>)
    requires |sep| > 0
    ensures |r| >= 1
    ensures forall k :: 0 <= k < |r| ==> !Contains(r[k], sep)
    decreases |s|
  {
    match IndexOf(s, sep)
    case None => [s]
    case Some(i) =>
      BeforeFirstSearch(s, sep, i, 0);
      [s[..i]] + SplitFields(s[i + |sep|..], sep)
  }

  /** The text before the first occurrence of `sep` holds no occurrence of it. */
  lemma BeforeFirstSearch(s: string, sep: string, i: nat, from: nat)
    requires |sep| > 0 && IndexOf(s, sep) == Some(i) && from <= i
    ensures IndexOfFrom(s[..i], sep, from).None?
    decreases i - from
  {
    var t := s[..i];
    if from + |sep| <= |t| {
      assert !StartsWith(s[from..], sep);
      assert t[from..from + |sep|] == s[from..][..|sep|];
      BeforeFirstSearch(s, sep, i, from + 1);
    }
  }

  lemma JoinCons(x: string, rest: seq<string>, sep: string)
    requires |rest| >= 1
    ensures Join([x] + rest, sep) == x + sep + Join(rest, sep)
  {
    assert ([x] + rest)[1..] == rest;
  }

  /** Joining the fields with the separator gives back the string. */
  lemma {:induction false} SplitFieldsJoin(s: string, sep: string)
    requires |sep| > 0
    ensures Join(SplitFields(s, sep), sep) == s
    decreases |s|
  {
    var r := IndexOf(s, sep);
    if r.Some? {
      var i := r.value;
      var tail := s[i + |sep|..];
      assert SplitFields(s, sep) == [s[..i]] + SplitFields(tail, sep);
      assert s[i..i + |sep|] == sep;
      assert s == s[..i] + s[i..i + |sep|] + tail;
      SplitFieldsJoin(tail, sep);
      JoinCons(s[..i], SplitFields(tail, sep), sep);
    }
  }

  /** Ruby drops trailing empty fields: what is left is a prefix ending in a non-empty field. */
  function DropTrailingEmpty(parts: seq<string>): (r: seq<string>)
    ensures |r| <= |parts| && r == parts[..|r|]
    ensures r == [] || r[|r| - 1] != ""
    ensures forall k :: |r| <= k < |parts| ==> parts[k] == ""
  {
    if parts == [] then []
    else if parts[|parts| - 1] == "" then DropTrailingEmpty(parts[..|parts| - 1])
    else parts
  }

  /**
   * `s.split(sep)`: the fields between the separators, none holding the
   * separator, without trailing empty fields; `"".split(sep)` is empty.
   */
  function RubySplit(s: string, sep: string): (r: seq<string>)
    requires |sep| > 0
    ensures r == [] || r[|r| - 1] != ""
    ensures forall k :: 0 <= k < |r| ==> !Contains(r[k], sep)
    ensures s == "" ==> r == []
  {
    var fields := SplitFields(s, sep);
    assert s == "" ==> fields == [""];
    DropTrailingEmpty(fields)
  }

  /** A string without the separator's first character splits into itself. */
  lemma SplitFieldsNoSeparator(a: string, sep: string)
    requires |sep| > 0 && Lacks(a, sep[0])
    ensures SplitFields(a, sep) == [a]
  {
    forall k | 0 <= k <= |a| ensures !StartsWith(a[k..], sep) {
      if k < |a| {
        assert a[k..][0] == a[k];
      }
    }
    assert IndexOf(a, sep).None?;
  }

  /** A first field without the separator's first character is split off at the first separator. */
  lemma SplitFieldsFirst(a: string, sep: string, rest: string)
    requires |sep| > 0 && Lacks(a, sep[0])
    ensures SplitFields(a + sep + rest, sep) == [a] + SplitFields(rest, sep)
  {
    var s := a + sep + rest;
    forall k | 0 <= k < |a| ensures !StartsWith(s[k..], sep) {
      assert s[k..][0] == a[k];
    }
    assert StartsWith(s[|a|..], sep);
    assert IndexOf(s, sep) == Some(|a|);
    assert s[..|a|] == a && s[|a| + |sep|..] == rest;
  }

  /** Splitting a join on a one-character separator that no part holds gives the parts back. */
  lemma {:induction false} SplitFieldsOfJoin(parts: seq<string>, c: char)
    requires |parts| >= 1
    requires forall k :: 0 <= k < |parts| ==> Lacks(parts[k], c)
    ensures SplitFields(Join(parts, [c]), [c]) == parts
  {
    if |parts| == 1 {
      SplitFieldsNoSeparator(parts[0], [c]);
    } else {
      SplitFieldsOfJoin(parts[1..], c);
      SplitFieldsFirst(parts[0], [c], Join(parts[1..], [c]));
      assert parts == [parts[0]] + parts[1..];
    }
  }

  // ---------------------------------------------------------------------------
  // The attribute list

  /**
   * One pair `k=v`: kept when splitting on `=` gives at least two fields, as
   * key and value. No entry is lost; an entry that is new or changed has a key
   * and a value without `=`; a pair without `=` adds nothing.
   */
  function AddPair(attrs: map<string, string>, pair: string): (r: map<string, string>)
    ensures forall k :: k in attrs ==> k in r
    ensures forall k :: k in r ==> (k in attrs && r[k] == attrs[k]) || (!Contains(k, "=") && !Contains(r[k], "="))
    ensures !Contains(pair, "=") ==> r == attrs
  {
    var kv := RubySplit(pair, "=");
    assert !Contains(pair, "=") ==> SplitFields(pair, "=") == [pair];
    if |kv| >= 2 then attrs[kv[0] := kv[1]] else attrs
  }

  /**
   * The attribute map `each_with_object` builds from the pairs, later pairs
   * overriding earlier ones: its keys and values hold no `=`.
   */
  function AttrsOf(pairs: seq<string>): (r: map<string, string>)
    ensures forall k :: k in r ==> !Contains(k, "=") && !Contains(r[k], "=")
  {
    if pairs == [] then map[] else AddPair(AttrsOf(pairs[..|pairs| - 1]), pairs[|pairs| - 1])
  }

  /** A pair with nothing after `=` (or an empty pair) adds nothing. */
  lemma PairWithoutValueDropped(attrs: map<string, string>, k: string)
    requires Lacks(k, '=')
    ensures AddPair(attrs, k + "=") == attrs
    ensures AddPair(attrs, "") == attrs
  {
    SplitFieldsFirst(k, "=", "");
    SplitFieldsNoSeparator("", "=");
    assert k + "=" == k + "=" + "";
    assert SplitFields(k + "=", "=") == [k, ""];
    assert DropTrailingEmpty([k, ""]) == DropTrailingEmpty([k]) by {
      assert [k, ""][..1] == [k];
    }
  }

  /** A pair `k=v` with no `=` in either and a non-empty value sets `k` to `v`. */
  lemma PairRead(attrs: map<string, string>, k: string, v: string)
    requires Lacks(k, '=') && Lacks(v, '=') && v != ""
    ensures AddPair(attrs, k + "=" + v) == attrs[k := v]
  {
    SplitFieldsFirst(k, "=", v);
    SplitFieldsNoSeparator(v, "=");
  }

  // ---------------------------------------------------------------------------
  // cast

  /** `/^weekly|monthly:/`: `weekly` at the start of some line, or `monthly:` anywhere. */
  predicate MatchesRulePattern(s: string) {
    (exists p :: 0 <= p <= |s| && (p == 0 || s[p - 1] == '\n') && StartsWith(s[p..], "weekly"))
    || Contains(s, "monthly:")
  }

  /**
   * What `cast` does with a string: exactly a string outside the pattern is
   * handed back; a matching one raises unless it splits on `::` into two
   * components, and otherwise gives the rule its first component names, with
   * attributes free of `=`.
   */
  function CastString(s: string): (r: Result<CastOutcome, CastError>)
    ensures r == Ok(Unchanged(Str(s))) <==> !MatchesRulePattern(s)
    ensures r.Err? && r.error.MalformedRuleString? <==> MatchesRulePattern(s) && |RubySplit(s, "::")| != 2
    ensures r.Ok? && r.value.CastRule? ==>
              && |RubySplit(s, "::")| == 2 && RubySplit(s, "::")[0] == KindName(r.value.kind)
              && forall k :: k in r.value.attrs ==> !Contains(k, "=") && !Contains(r.value.attrs[k], "=")
  {
    if !MatchesRulePattern(s) then Ok(Unchanged(Str(s)))
    else
      var components := RubySplit(s, "::");
      if |components| != 2 then Err(MalformedRuleString(|components|))
      else
        var attrs := AttrsOf(RubySplit(components[1], ";"));
        var kind := ResolveRruleType(Some(components[0]));
        if kind.Err? then Err(kind.error) else Ok(CastRule(kind.value, attrs))
  }

  /** What `cast` does: the string branch, the hash branch, and `super` for anything else. */
  function CastSpec(value: Value): Result<CastOutcome, CastError> {
    match value
    case Str(s) => CastString(s)
    case Hash(entries) =>
      var typeStr := if "recurrence_type" in entries then Some(entries["recurrence_type"]) else None;
      var kind := ResolveRruleType(typeStr);
      if kind.Err? then Err(kind.error) else Ok(CastRule(kind.value, entries - {"recurrence_type"}))
    case _ => Ok(Unchanged(value))
  }

  /** cast, building the attribute map pair by pair. */
  method Cast(value: Value) returns (r: Result<CastOutcome, CastError>)
    ensures r == CastSpec(value)
  {
    if value.Str? && MatchesRulePattern(value.s) {
      var components := RubySplit(value.s, "::");
      if |components| != 2 {
        return Err(MalformedRuleString(|components|));
      }
      var typeStr, allAttrs := components[0], components[1];
      var attrPairs := RubySplit(allAttrs, ";");
      var attrs := ReadAttrs(attrPairs);
      var kind := ResolveRruleType(Some(typeStr));
      if kind.Err? {
        return Err(kind.error);
      }
      return Ok(CastRule(kind.value, attrs));
    } else if value.Hash? {
      var attrs := value.entries - {"recurrence_type"};
      var typeStr := if "recurrence_type" in value.entries then Some(value.entries["recurrence_type"]) else None;
      var kind := ResolveRruleType(typeStr);
      if kind.Err? {
        return Err(kind.error);
      }
      return Ok(CastRule(kind.value, attrs));
    } else {
      return Ok(Unchanged(value));
    }
  }

  /** The `each_with_object` loop of `cast`, building the attribute map pair by pair. */
  method ReadAttrs(attrPairs: seq<string>) returns (attrs: map<string, string>)
    ensures attrs == AttrsOf(attrPairs)
  {
    attrs := map[];
    var i := 0;
    while i < |attrPairs|
      invariant 0 <= i <= |attrPairs|
      invariant attrs == AttrsOf(attrPairs[..i])
    {
      assert attrPairs[..i + 1][..i] == attrPairs[..i];
      var kv := RubySplit(attrPairs[i], "=");
      if |kv| >= 2 {
        attrs := attrs[kv[0] := kv[1]];
      }
      i := i + 1;
    }
    assert attrPairs[..|attrPairs|] == attrPairs;
  }

  // ---------------------------------------------------------------------------
  // serialize

  function PairTexts(attrs: seq<(string, string)>): (r: seq<string>)
    ensures |r| == |attrs|
    ensures forall k :: 0 <= k < |attrs| ==> r[k] == attrs[k].0 + "=" + attrs[k].1
  {
    seq(|attrs|, k requires 0 <= k < |attrs| => attrs[k].0 + "=" + attrs[k].1)
  }

  /** Keys and values without `;`, the separator of the pairs. */
  predicate SemicolonFree(attrs: seq<(string, string)>) {
    forall k :: 0 <= k < |attrs| ==> Lacks(attrs[k].0, ';') && Lacks(attrs[k].1, ';')
  }

  /**
   * serialize: a rule object becomes `<type>::k1=v1;...`, in attribute order;
   * anything else goes to `super` unchanged.
   */
  function Serialize(value: Value): (r: Value)
    ensures value.RuleObject? ==> r.Str? && |r.s| >= |KindName(value.kind)| + 2 && r.s[..|KindName(value.kind)| + 2] == KindName(value.kind) + "::"
    ensures value.RuleObject? && SemicolonFree(value.attrs) ==>
              RubySplit(r.s[|KindName(value.kind)| + 2..], ";") == PairTexts(value.attrs)
    ensures !value.RuleObject? ==> r == value
  {
    match value
    case RuleObject(kind, attrs) =>
      var body := Join(PairTexts(attrs), ";");
      var s := KindName(kind) + "::" + body;
      assert s[..|KindName(kind)| + 2] == KindName(kind) + "::";
      assert s[|KindName(kind)| + 2..] == body;
      assert SemicolonFree(attrs) ==> RubySplit(body, ";") == PairTexts(attrs) by {
        if SemicolonFree(attrs) {
          PairsSplitBack(attrs);
        }
      }
      Str(s)
    case _ => value
  }

  /** The attribute text splits on `;` back into the `k=v` pairs, in order. */
  lemma PairsSplitBack(attrs: seq<(string, string)>)
    requires SemicolonFree(attrs)
    ensures RubySplit(Join(PairTexts(attrs), ";"), ";") == PairTexts(attrs)
  {
    var pairs := PairTexts(attrs);
    if attrs == [] {
      SplitFieldsNoSeparator("", ";");
      assert DropTrailingEmpty([""]) == [];
    } else {
      PairTextsLack(attrs, ';');
      SplitFieldsOfJoin(pairs, ';');
      assert pairs[|pairs| - 1] != "" by {
        assert |pairs[|pairs| - 1]| > 0;
      }
    }
  }

  // ---------------------------------------------------------------------------
  // Round trip and error cases

  /** The attribute map an attribute list denotes, later entries overriding earlier ones. */
  function MapOf(attrs: seq<(string, string)>): map<string, string> {
    if attrs == [] then map[] else MapOf(attrs[..|attrs| - 1])[attrs[|attrs| - 1].0 := attrs[|attrs| - 1].1]
  }

  /** No two colons in a row: the text never holds the `::` that ends the type. */
  predicate NoDoubleColon(s: string) {
    forall i :: 0 <= i < |s| - 1 ==> !(s[i] == ':' && s[i + 1] == ':')
  }

  /** Keys and values that the string form carries unambiguously. */
  predicate PlainAttrs(attrs: seq<(string, string)>) {
    SemicolonFree(attrs)
    && forall k :: 0 <= k < |attrs| ==>
      Lacks(attrs[k].0, '=') && NoDoubleColon(attrs[k].0)
      && Lacks(attrs[k].1, '=') && NoDoubleColon(attrs[k].1)
      && attrs[k].1 != ""
  }

  lemma {:induction false} AttrsOfPairTexts(attrs: seq<(string, string)>)
    requires PlainAttrs(attrs)
    ensures AttrsOf(PairTexts(attrs)) == MapOf(attrs)
  {
    if attrs != [] {
      var n := |attrs| - 1;
      assert PairTexts(attrs)[..n] == PairTexts(attrs[..n]);
      AttrsOfPairTexts(attrs[..n]);
      PairRead(MapOf(attrs[..n]), attrs[n].0, attrs[n].1);
    }
  }

  lemma PairTextsLack(attrs: seq<(string, string)>, c: char)
    requires forall k :: 0 <= k < |attrs| ==> Lacks(attrs[k].0, c) && Lacks(attrs[k].1, c)
    requires c != '='
    ensures forall k :: 0 <= k < |attrs| ==> Lacks(PairTexts(attrs)[k], c)
  {
    forall k | 0 <= k < |attrs| ensures Lacks(PairTexts(attrs)[k], c) {
      var t := PairTexts(attrs)[k];
      assert t == attrs[k].0 + "=" + attrs[k].1;
      forall i | 0 <= i < |t| ensures t[i] != c {
        if i < |attrs[k].0| {
          assert t[i] == attrs[k].0[i];
        } else if i > |attrs[k].0| {
          assert t[i] == attrs[k].1[i - |attrs[k].0| - 1];
        }
      }
    }
  }

  /** Putting a character other than `:` between two texts without `::` creates none. */
  lemma NoDoubleColonAround(a: string, c: char, b: string)
    requires NoDoubleColon(a) && NoDoubleColon(b) && c != ':'
    ensures NoDoubleColon(a + [c] + b)
  {
    var t := a + [c] + b;
    forall i | 0 <= i < |t| - 1 ensures !(t[i] == ':' && t[i + 1] == ':') {
      if i + 1 < |a| {
        assert t[i] == a[i] && t[i + 1] == a[i + 1];
      } else if i == |a| - 1 {
        assert t[i + 1] == c;
      } else if i == |a| {
        assert t[i] == c;
      } else {
        assert t[i] == b[i - |a| - 1] && t[i + 1] == b[i - |a|];
      }
    }
  }

  /** A join, on a character other than `:`, of parts without `::` has none. */
  lemma {:induction false} JoinNoDoubleColon(parts: seq<string>, c: char)
    requires c != ':' && forall k :: 0 <= k < |parts| ==> NoDoubleColon(parts[k])
    ensures NoDoubleColon(Join(parts, [c]))
  {
    if |parts| > 1 {
      JoinNoDoubleColon(parts[1..], c);
      NoDoubleColonAround(parts[0], c, Join(parts[1..], [c]));
    }
  }

  /** A text without `::` does not split on `::`. */
  lemma NoDoubleColonSplit(a: string)
    requires NoDoubleColon(a)
    ensures SplitFields(a, "::") == [a]
  {
    NoDoubleColonSearch(a, 0);
  }

  lemma NoDoubleColonSearch(a: string, from: nat)
    requires NoDoubleColon(a)
    ensures IndexOfFrom(a, "::", from).None?
    decreases |a| - from
  {
    if from + 2 <= |a| {
      assert a[from..from + 2] == [a[from], a[from + 1]];
      NoDoubleColonSearch(a, from + 1);
    }
  }

  lemma RulePatternOfSerialized(kind: RuleKind, body: string)
    ensures MatchesRulePattern(KindName(kind) + "::" + body)
  {
    var s := KindName(kind) + "::" + body;
    match kind
    case WeeklyKind =>
      assert StartsWith(s[0..], "weekly");
    case MonthlyKind =>
      assert StartsWith(s[0..], "monthly:");
  }

  /**
   * `<type>::<body>` splits on `::` into the type and the body, when the body
   * is not empty and has no `::`; a `:` at the start of the body is no
   * obstacle, as the first `::` is the one after the type.
   */
  lemma SerializedComponents(kind: RuleKind, body: string)
    requires NoDoubleColon(body) && body != ""
    ensures RubySplit(KindName(kind) + "::" + body, "::") == [KindName(kind), body]
  {
    SplitFieldsFirst(KindName(kind), "::", body);
    NoDoubleColonSplit(body);
  }

  /** The attribute text of plain attributes has no `::` and is not empty. */
  lemma SerializedBody(attrs: seq<(string, string)>)
    requires |attrs| >= 1 && PlainAttrs(attrs)
    ensures NoDoubleColon(Join(PairTexts(attrs), ";")) && Join(PairTexts(attrs), ";") != ""
  {
    var pairs := PairTexts(attrs);
    forall k | 0 <= k < |pairs| ensures NoDoubleColon(pairs[k]) {
      NoDoubleColonAround(attrs[k].0, '=', attrs[k].1);
      assert pairs[k] == attrs[k].0 + ['='] + attrs[k].1;
    }
    JoinNoDoubleColon(pairs, ';');
    assert ";" == [';'];
    assert |pairs[0]| > 0;
  }

  /**
   * Round trip: casting the string `serialize` writes for a rule with at least
   * one attribute, whose keys and values hold no `;`, `=` or `::` and whose
   * values are not empty, gives back the rule's type and attribute map.
   */
  lemma RoundTrip(kind: RuleKind, attrs: seq<(string, string)>)
    requires |attrs| >= 1 && PlainAttrs(attrs)
    ensures CastSpec(Serialize(RuleObject(kind, attrs))) == Ok(CastRule(kind, MapOf(attrs)))
  {
    var body := Join(PairTexts(attrs), ";");
    RulePatternOfSerialized(kind, body);
    SerializedBody(attrs);
    PairsSplitBack(attrs);
    SerializedComponents(kind, body);
    AttrsOfPairTexts(attrs);
    CastTwoComponents(KindName(kind) + "::" + body, kind, body);
  }

  lemma CastTwoComponents(s: string, kind: RuleKind, body: string)
    requires MatchesRulePattern(s) && RubySplit(s, "::") == [KindName(kind), body]
    ensures CastString(s) == Ok(CastRule(kind, AttrsOf(RubySplit(body, ";"))))
  {
  }

  /** A rule with no attributes serializes to `<type>::`, which has one component and does not cast back. */
  lemma EmptyAttributesDoNotCastBack(kind: RuleKind)
    ensures CastSpec(Serialize(RuleObject(kind, []))) == Err(MalformedRuleString(1))
  {
    var s := KindName(kind) + "::";
    RulePatternOfSerialized(kind, "");
    SplitFieldsFirst(KindName(kind), "::", "");
    SplitFieldsNoSeparator("", "::");
    assert s == KindName(kind) + "::" + "";
    assert SplitFields(s, "::") == [KindName(kind), ""];
    assert [KindName(kind), ""][..1] == [KindName(kind)];
    assert DropTrailingEmpty([KindName(kind)]) == [KindName(kind)];
    assert RubySplit(s, "::") == [KindName(kind)];
  }

  /** A matching string with two components whose type is neither `monthly` nor `weekly` raises. */
  lemma UnknownTypeRaises(s: string)
    requires MatchesRulePattern(s) && |RubySplit(s, "::")| == 2
    requires RubySplit(s, "::")[0] != "monthly" && RubySplit(s, "::")[0] != "weekly"
    ensures CastSpec(Str(s)) == Err(UnknownRuleType(Some(RubySplit(s, "::")[0])))
  {
  }

  /** A matching string that does not split into exactly two components raises. */
  lemma MalformedStringRaises(s: string)
    requires MatchesRulePattern(s) && |RubySplit(s, "::")| != 2
    ensures CastSpec(Str(s)) == Err(MalformedRuleString(|RubySplit(s, "::")|))
  {
  }

  /** Strings outside the pattern and values that are neither strings nor hashes pass through. */
  lemma PassThrough(value: Value)
    requires (value.Str? && !MatchesRulePattern(value.s)) || value.RuleObject? || value.Other?
    ensures CastSpec(value) == Ok(Unchanged(value))
  {
  }

  /** The hash branch resolves `recurrence_type` and hands over the other entries without it. */
  lemma HashBranch(entries: map<string, string>)
    ensures "recurrence_type" in entries && entries["recurrence_type"] in {"monthly", "weekly"} <==> CastSpec(Hash(entries)).Ok?
    ensures CastSpec(Hash(entries)).Ok? ==>
      CastSpec(Hash(entries)).value.CastRule?
      && KindName(CastSpec(Hash(entries)).value.kind) == entries["recurrence_type"]
      && "recurrence_type" !in CastSpec(Hash(entries)).value.attrs
      && (forall k :: k in entries && k != "recurrence_type" ==>
            k in CastSpec(Hash(entries)).value.attrs && CastSpec(Hash(entries)).value.attrs[k] == entries[k])
      && (forall k :: k in CastSpec(Hash(entries)).value.attrs ==> k in entries)
  {
  }
}
