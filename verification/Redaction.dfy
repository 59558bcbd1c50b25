/** Redaction of credentials in JSON settings: tools/profile_scan.py lines 196 to 214. */
module Redaction {
  import opened Text
  import opened Wrappers

  /** JSON as Python reads it; members keep their order. */
  datatype Json =
    | Null
    | Bool(b: bool)
    | Number(n: real)
    | Str(s: string)
    | Array(items: seq<Json>)
    | Object(members: seq<Member>)

  datatype Member = Member(key: string, value: Json)

  const REDACTED := "<REDACTED>"

  /** Lower-cased letters and digits only. */
  function Folded(key: string): string {
    if key == "" then ""
    else
      var c := LowerChar(key[0]);
      (if IsLower(c) || IsDigit(c) then [c] else "") + Folded(key[1..])
  }

  /** `sensitive_key`, for the folded keys of the policy. */
  predicate SensitiveKey(key: string, policy: set<string>) { Folded(key) in policy }

  /** A string or a number; booleans and null stay. */
  predicate IsScalar(v: Json) { v.Str? || v.Number? }

  predicate Sensitive(m: Member, policy: set<string>) {
    SensitiveKey(m.key, policy) && IsScalar(m.value)
  }

  function Redact(v: Json, policy: set<string>): Json
    decreases v
  {
    match v
    case Object(members) =>
      Object(seq(|members|, i requires 0 <= i < |members| =>
        Member(members[i].key,
               if Sensitive(members[i], policy) then Str(REDACTED) else Redact(members[i].value, policy))))
    case Array(items) => Array(seq(|items|, i requires 0 <= i < |items| => Redact(items[i], policy)))
    case _ => v
  }

  function Location(prefix: string, key: string): string {
    if prefix == "" then key else prefix + "." + key
  }

  /** The locations reported, in the order of the text. */
  function Findings(v: Json, policy: set<string>, prefix: string): seq<string>
    decreases v
  {
    match v
    case Object(members) => MemberFindings(v, policy, prefix, |members|)
    case Array(items) => ItemFindings(v, policy, prefix, |items|)
    case _ => []
  }

  function MemberFindings(v: Json, policy: set<string>, prefix: string, n: nat): seq<string>
    requires v.Object? && n <= |v.members|
    decreases v, n
  {
    if n == 0 then []
    else
      var m := v.members[n - 1];
      var location := Location(prefix, m.key);
      MemberFindings(v, policy, prefix, n - 1) +
      if Sensitive(m, policy) then [location] else Findings(m.value, policy, location)
  }

  function ItemFindings(v: Json, policy: set<string>, prefix: string, n: nat): seq<string>
    requires v.Array? && n <= |v.items|
    decreases v, n
  {
    if n == 0 then []
    else
      ItemFindings(v, policy, prefix, n - 1) +
      Findings(v.items[n - 1], policy, prefix + "[" + Decimal(n - 1) + "]")
  }

  /** No member anywhere inside has a sensitive key and a scalar that is not redacted. */
  predicate NoLeak(v: Json, policy: set<string>)
    decreases v
  {
    match v
    case Object(members) =>
      forall i :: 0 <= i < |members| ==>
        if Sensitive(members[i], policy) then members[i].value == Str(REDACTED) else NoLeak(members[i].value, policy)
    case Array(items) => forall i :: 0 <= i < |items| ==> NoLeak(items[i], policy)
    case _ => true
  }

  /** Nothing sensitive is left. */
  lemma {:induction false} RedactedDoesNotLeak(v: Json, policy: set<string>)
    ensures NoLeak(Redact(v, policy), policy)
    decreases v
  {
    hide SensitiveKey;
    match v
    case Object(members) =>
      forall i | 0 <= i < |members| ensures NoLeak(Redact(members[i].value, policy), policy) {
        RedactedDoesNotLeak(members[i].value, policy);
      }
      forall i | 0 <= i < |members| && !IsScalar(members[i].value)
        ensures !IsScalar(Redact(members[i].value, policy)) {
      }
    case Array(items) =>
      forall i | 0 <= i < |items| ensures NoLeak(Redact(items[i], policy), policy) {
        RedactedDoesNotLeak(items[i], policy);
      }
    case _ =>
  }

  /** A value is unchanged exactly when it had nothing to redact. */
  lemma {:induction false} UnchangedIffNoLeak(v: Json, policy: set<string>)
    ensures Redact(v, policy) == v <==> NoLeak(v, policy)
    decreases v
  {
    hide SensitiveKey;
    match v
    case Object(members) =>
      forall i | 0 <= i < |members|
        ensures Redact(members[i].value, policy) == members[i].value <==> NoLeak(members[i].value, policy)
      {
        UnchangedIffNoLeak(members[i].value, policy);
      }
      var r := Redact(v, policy);
      if NoLeak(v, policy) {
        assert forall i :: 0 <= i < |members| ==> r.members[i] == members[i];
      }
      if r == v {
        forall i | 0 <= i < |members|
          ensures if Sensitive(members[i], policy) then members[i].value == Str(REDACTED)
                  else NoLeak(members[i].value, policy)
        {
          assert r.members[i] == members[i];
        }
      }
    case Array(items) =>
      forall i | 0 <= i < |items| ensures Redact(items[i], policy) == items[i] <==> NoLeak(items[i], policy) {
        UnchangedIffNoLeak(items[i], policy);
      }
      var r := Redact(v, policy);
      if NoLeak(v, policy) {
        assert forall i :: 0 <= i < |items| ==> r.items[i] == items[i];
      }
      if r == v {
        forall i | 0 <= i < |items| ensures NoLeak(items[i], policy) {
          assert r.items[i] == items[i];
        }
      }
    case _ =>
  }

  /** Redacting twice is redacting once. */
  lemma RedactTwice(v: Json, policy: set<string>)
    ensures Redact(Redact(v, policy), policy) == Redact(v, policy)
  {
    RedactedDoesNotLeak(v, policy);
    UnchangedIffNoLeak(Redact(v, policy), policy);
  }

  /** One step down: the member or item at a position. */
  datatype Step = InMember(i: nat) | InItem(i: nat)

  function Child(v: Json, step: Step): Option<Json> {
    match step
    case InMember(i) => if v.Object? && i < |v.members| then Some(v.members[i].value) else None
    case InItem(i) => if v.Array? && i < |v.items| then Some(v.items[i]) else None
  }

  function At(v: Json, path: seq<Step>): Option<Json> {
    if path == [] then Some(v)
    else
      var child := Child(v, path[0]);
      if child.None? then None else At(child.value, path[1..])
  }

  /** The path ends at a member with a sensitive key and a scalar value. */
  predicate SensitiveAt(v: Json, path: seq<Step>, policy: set<string>) {
    path != [] &&
    if |path| == 1 then
      path[0].InMember? && v.Object? && path[0].i < |v.members| && Sensitive(v.members[path[0].i], policy)
    else
      var child := Child(v, path[0]);
      child.Some? && SensitiveAt(child.value, path[1..], policy)
  }

  /** The same places exist before and after. At each of them stands what stood there, redacted,
      and the placeholder exactly where a sensitive scalar stood. */
  lemma {:induction false} RedactedAt(v: Json, path: seq<Step>, policy: set<string>)
    ensures At(Redact(v, policy), path) ==
            if At(v, path).None? then None
            else if SensitiveAt(v, path, policy) then Some(Str(REDACTED))
            else Some(Redact(At(v, path).value, policy))
    decreases |path|
  {
    hide SensitiveKey;
    if path != [] {
      ChildRedacted(v, path[0], policy);
      var child := Child(v, path[0]);
      if child.Some? {
        if |path| == 1 {
          assert path[1..] == [];
        } else {
          RedactedAt(child.value, path[1..], policy);
          if IsScalar(child.value) { ScalarHasNoChild(child.value, path[1..]); ScalarHasNoChild(Str(REDACTED), path[1..]); }
        }
      }
    }
  }

  lemma ChildRedacted(v: Json, step: Step, policy: set<string>)
    ensures Child(Redact(v, policy), step) ==
            if Child(v, step).None? then None
            else if SensitiveAt(v, [step], policy) then Some(Str(REDACTED))
            else Some(Redact(Child(v, step).value, policy))
    ensures SensitiveAt(v, [step], policy) ==> Child(v, step).Some? && IsScalar(Child(v, step).value)
  {
    hide SensitiveKey;
  }

  lemma ScalarHasNoChild(v: Json, path: seq<Step>)
    requires IsScalar(v) && path != []
    ensures At(v, path) == None
  {
  }

  /** Keys, their order and the lengths of arrays stay; so does every scalar that is not a
      sensitive member. */
  lemma RedactKeepsShape(v: Json, policy: set<string>)
    ensures var r := Redact(v, policy);
            && (v.Object? <==> r.Object?) && (v.Array? <==> r.Array?)
            && (v.Object? ==> |r.members| == |v.members|
                              && forall i :: 0 <= i < |v.members| ==> r.members[i].key == v.members[i].key)
            && (v.Array? ==> |r.items| == |v.items|)
            && (!v.Object? && !v.Array? ==> r == v)
  {
  }

  /** What has been redacted is reported again, at the same places. */
  lemma {:induction false} FindingsRepeat(v: Json, policy: set<string>, prefix: string)
    ensures Findings(Redact(v, policy), policy, prefix) == Findings(v, policy, prefix)
    decreases v
  {
    match v
    case Object(members) => MemberFindingsRepeat(v, policy, prefix, |members|);
    case Array(items) => ItemFindingsRepeat(v, policy, prefix, |items|);
    case _ =>
  }

  lemma {:induction false} MemberFindingsRepeat(v: Json, policy: set<string>, prefix: string, n: nat)
    requires v.Object? && n <= |v.members|
    ensures MemberFindings(Redact(v, policy), policy, prefix, n) == MemberFindings(v, policy, prefix, n)
    decreases v, n
  {
    hide SensitiveKey, Location;
    if n > 0 {
      MemberFindingsRepeat(v, policy, prefix, n - 1);
      var m := v.members[n - 1];
      FindingsRepeat(m.value, policy, Location(prefix, m.key));
      ScalarStays(m.value, policy);
    }
  }

  lemma {:induction false} ItemFindingsRepeat(v: Json, policy: set<string>, prefix: string, n: nat)
    requires v.Array? && n <= |v.items|
    ensures ItemFindings(Redact(v, policy), policy, prefix, n) == ItemFindings(v, policy, prefix, n)
    decreases v, n
  {
    if n > 0 {
      ItemFindingsRepeat(v, policy, prefix, n - 1);
      FindingsRepeat(v.items[n - 1], policy, prefix + "[" + Decimal(n - 1) + "]");
    }
  }

  lemma ScalarStays(v: Json, policy: set<string>)
    ensures IsScalar(Redact(v, policy)) <==> IsScalar(v)
  {
  }

  /** Nothing is reported exactly when nothing anywhere is sensitive, redacted or not. */
  predicate NothingSensitive(v: Json, policy: set<string>)
    decreases v
  {
    match v
    case Object(members) =>
      forall i :: 0 <= i < |members| ==> !Sensitive(members[i], policy) && NothingSensitive(members[i].value, policy)
    case Array(items) => forall i :: 0 <= i < |items| ==> NothingSensitive(items[i], policy)
    case _ => true
  }

  lemma {:induction false} ReportsIffSensitive(v: Json, policy: set<string>, prefix: string)
    ensures Findings(v, policy, prefix) == [] <==> NothingSensitive(v, policy)
    decreases v
  {
    match v
    case Object(members) => MembersReport(v, policy, prefix, |members|);
    case Array(items) => ItemsReport(v, policy, prefix, |items|);
    case _ =>
  }

  lemma {:induction false} MembersReport(v: Json, policy: set<string>, prefix: string, n: nat)
    requires v.Object? && n <= |v.members|
    ensures MemberFindings(v, policy, prefix, n) == [] <==>
            forall i :: 0 <= i < n ==> !Sensitive(v.members[i], policy) && NothingSensitive(v.members[i].value, policy)
    decreases v, n
  {
    hide SensitiveKey, Location;
    if n > 0 {
      MembersReport(v, policy, prefix, n - 1);
      var m := v.members[n - 1];
      ReportsIffSensitive(m.value, policy, Location(prefix, m.key));
    }
  }

  lemma {:induction false} ItemsReport(v: Json, policy: set<string>, prefix: string, n: nat)
    requires v.Array? && n <= |v.items|
    ensures ItemFindings(v, policy, prefix, n) == [] <==> forall i :: 0 <= i < n ==> NothingSensitive(v.items[i], policy)
    decreases v, n
  {
    if n > 0 {
      ItemsReport(v, policy, prefix, n - 1);
      ReportsIffSensitive(v.items[n - 1], policy, prefix + "[" + Decimal(n - 1) + "]");
    }
  }

  /** Folding drops everything but letters and digits, and the case of letters. */
  lemma {:induction false} FoldedIs(key: string, c: char)
    ensures Folded("") == ""
    ensures Folded(key + [c]) == Folded(key) + if 'A' <= c <= 'Z' then [(c as int + 32) as char]
                                               else if 'a' <= c <= 'z' || '0' <= c <= '9' then [c] else ""
    decreases |key|
  {
    FoldedOne(c);
    hide LowerChar;
    if key == "" {
      assert key + [c] == [c];
    } else {
      var head, rest := Folded([key[0]]), key[1..];
      assert key == [key[0]] + rest && [key[0]][1..] == "" && (key + [c])[1..] == rest + [c];
      assert Folded(key) == head + Folded(rest) && Folded(key + [c]) == head + Folded(rest + [c]);
      hide Folded;
      FoldedIs(rest, c);
    }
  }

  lemma FoldedOne(c: char)
    ensures Folded("") == ""
    ensures Folded([c]) == if 'A' <= c <= 'Z' then [(c as int + 32) as char]
                           else if 'a' <= c <= 'z' || '0' <= c <= '9' then [c] else ""
  {
    assert [c][1..] == "";
  }

  /** A string or a number under a key of the policy is replaced; booleans and null are not, nor is
      anything under another key. */
  lemma MemberIsRedacted(members: seq<Member>, i: nat, policy: set<string>)
    requires i < |members|
    ensures var m, r := members[i], Redact(Object(members), policy);
            && r.Object? && |r.members| == |members| && r.members[i].key == m.key
            && (m.value.Str? || m.value.Number? ==>
                  r.members[i].value == if Folded(m.key) in policy then Str("<REDACTED>") else m.value)
            && (m.value.Bool? || m.value.Null? ==> r.members[i].value == m.value)
  {
    hide Folded;
  }

  /** A location names the keys and positions on the way. */
  lemma LocationsAre(outer: string, inner: string, secret: string, policy: set<string>)
    requires outer != "" && Folded(inner) in policy
    ensures Findings(Object([Member(outer, Array([Object([Member(inner, Str(secret))])]))]), policy, "")
            == [outer + "[0]." + inner]
  {
    var leaf := Object([Member(inner, Str(secret))]);
    var list := Array([leaf]);
    assert Findings(leaf, policy, outer + "[0]") == [outer + "[0]." + inner] by {
      assert MemberFindings(leaf, policy, outer + "[0]", 0) == [];
      assert outer + "[0]" + "." + inner == outer + "[0]." + inner;
      assert Location(outer + "[0]", inner) == outer + "[0]." + inner;
      assert MemberFindings(leaf, policy, outer + "[0]", 1) == [] + [Location(outer + "[0]", inner)];
    }
    assert Findings(list, policy, outer) == [outer + "[0]." + inner] by {
      assert Decimal(0) == "0" && outer + "[" + "0" + "]" == outer + "[0]";
      assert ItemFindings(list, policy, outer, 0) == [];
    }
    assert MemberFindings(Object([Member(outer, list)]), policy, "", 0) == [];
  }
}
