/** Decoded JSON as Lua sees it, and the string helpers the profile code uses. */
module LuaValues {
  import Paths
  import opened Text

  /** A field that is absent or null reads as `Nil`. */
  datatype Value =
    | Nil
    | Bool(b: bool)
    | Number(n: real)
    | Str(s: string)
    | List(items: seq<Value>)
    | Table(fields: map<string, Value>)

  predicate IsTable(v: Value) { v.List? || v.Table? }

  function Get(v: Value, field: string): Value {
    if v.Table? && field in v.fields then v.fields[field] else Nil
  }

  /** What `ipairs` visits: the elements up to the first nil. */
  function Items(v: Value): (r: seq<Value>)
    ensures forall i :: 0 <= i < |r| ==> r[i] != Nil
  {
    if v.List? then UpToNil(v.items) else []
  }

  function UpToNil(items: seq<Value>): (r: seq<Value>)
    ensures r <= items && forall i :: 0 <= i < |r| ==> r[i] != Nil
  {
    if items == [] || items[0] == Nil then [] else [items[0]] + UpToNil(items[1..])
  }

  lemma {:induction false} NoNilInside(items: seq<Value>)
    requires forall i :: 0 <= i < |items| ==> items[i] != Nil
    ensures UpToNil(items) == items
  {
    if items != [] { NoNilInside(items[1..]); }
  }

  function TrimLeft(s: string): (r: string)
    ensures |r| <= |s| && r == s[|s| - |r|..]
    ensures r != "" ==> !IsSpace(r[0])
    ensures forall i :: 0 <= i < |s| - |r| ==> IsSpace(s[i])
  {
    if s != "" && IsSpace(s[0]) then TrimLeft(s[1..]) else s
  }

  function TrimRight(s: string): (r: string)
    ensures r <= s
    ensures r != "" ==> !IsSpace(r[|r| - 1])
    ensures forall i :: |r| <= i < |s| ==> IsSpace(s[i])
  {
    if s != "" && IsSpace(s[|s| - 1]) then TrimRight(s[..|s| - 1]) else s
  }

  /** `match('^%s*(.-)%s*$')`. */
  function Trim(s: string): string { TrimRight(TrimLeft(s)) }

  /** Nothing to trim: neither end is white space. */
  predicate Trimmed(s: string) {
    s == "" || (!IsSpace(s[0]) && !IsSpace(s[|s| - 1]))
  }

  lemma TrimIs(s: string)
    ensures Trimmed(Trim(s)) && (Trim(s) == s <==> Trimmed(s))
  {
    var left := TrimLeft(s);
    if left != "" && TrimRight(left) != "" { assert TrimRight(left)[0] == left[0]; }
  }

  predicate IsIdStart(c: char) { IsLower(c) || IsDigit(c) }

  predicate IsIdCharacter(c: char) { IsIdStart(c) || c == '.' || c == '_' || c == '-' }

  /** `safe_id`. */
  predicate SafeId(s: string) {
    2 <= |s| <= 64 && IsIdStart(s[0]) && forall i :: 0 <= i < |s| ==> IsIdCharacter(s[i])
  }

  /** The Lua side and the engine accept the same package ids. */
  lemma IdRulesAgree(s: string)
    ensures SafeId(s) <==> Paths.SafePackageId(s)
  {
    assert forall c :: c in s ==> exists i :: 0 <= i < |s| && s[i] == c;
  }

  /** Only white space is cut off. */
  lemma TrimKeeps(s: string) returns (from: nat, to: nat)
    ensures from <= to <= |s| && Trim(s) == s[from..to]
    ensures forall i :: 0 <= i < from || to <= i < |s| ==> IsSpace(s[i])
  {
    var left := TrimLeft(s);
    from := |s| - |left|;
    to := from + |TrimRight(left)|;
    hide TrimLeft, TrimRight;
    Slices(s, from, |TrimRight(left)|);
    assert TrimRight(left) == left[..|TrimRight(left)|];
    SpaceBehind(s, left, from, to);
  }

  lemma Slices(s: string, from: nat, n: nat)
    requires from + n <= |s|
    ensures s[from..][..n] == s[from..from + n]
  {
  }

  lemma SpaceBehind(s: string, left: string, from: nat, to: nat)
    requires from <= to <= |s| && left == s[from..] && forall i :: to - from <= i < |left| ==> IsSpace(left[i])
    ensures forall i :: to <= i < |s| ==> IsSpace(s[i])
  {
    hide IsSpace;
    forall i | to <= i < |s| ensures IsSpace(s[i]) {
      assert s[i] == left[i - from];
    }
  }
}
