/** Package ids and archive paths: native/src/core.cpp. */
module Paths {
  import opened Text
  import opened Wrappers

  predicate SafePackageId(id: string) {
    && 2 <= |id| <= 64
    && (IsLower(id[0]) || IsDigit(id[0]))
    && forall c :: c in id ==> IsLower(c) || IsDigit(c) || c == '.' || c == '_' || c == '-'
  }

  function StripTrailing(s: string): string {
    if s != "" && (s[|s| - 1] == ' ' || s[|s| - 1] == '.') then StripTrailing(s[..|s| - 1]) else s
  }

  /** A segment that Windows resolves to a device whatever its extension. */
  predicate IsDevice(segment: string) {
    var value := StripTrailing(segment);
    var stem := Lower(if '.' in value then value[..FirstIndex(value, '.')] else value);
    || stem in {"con", "prn", "aux", "nul", "clock$"}
    || (|stem| == 4 && stem[..3] in {"com", "lpt"} && '1' <= stem[3] <= '9')
  }

  predicate SafeSegment(part: string) {
    && part != "" && part != "." && part != ".."
    && ':' !in part
    && part[|part| - 1] != ' ' && part[|part| - 1] != '.'
    && !IsDevice(part)
  }

  predicate AllSafe(pieces: seq<string>) {
    forall i :: 0 <= i < |pieces| ==> SafeSegment(pieces[i])
  }

  lemma AllSafeConcat(a: seq<string>, b: seq<string>)
    ensures AllSafe(a + b) <==> AllSafe(a) && AllSafe(b)
  {
    hide SafeSegment;
    if AllSafe(a + b) {
      forall i | 0 <= i < |a| ensures SafeSegment(a[i]) {
        assert (a + b)[i] == a[i];
      }
      forall i | 0 <= i < |b| ensures SafeSegment(b[i]) {
        assert (a + b)[|a| + i] == b[i];
      }
    }
  }

  /** What a relative path has to be: no backslash, no NUL, and only safe segments. */
  predicate SafeRelativePath(value: string) {
    '\\' !in value && '\0' !in value && AllSafe(Split(value, '/'))
  }

  lemma SplitAtFirst(s: string, i: nat)
    requires i < |s| && s[i] == '/' && '/' !in s[..i]
    ensures Split(s, '/') == [s[..i]] + Split(s[i + 1..], '/')
  {
    assert s == s[..i] + ['/'] + s[i + 1..];
    FirstIndexConcat(s[..i], '/', s[i + 1..]);
  }

  /** A colon in second place puts a colon in the first segment. */
  lemma DriveIsUnsafe(value: string)
    requires |value| >= 2 && value[0] != '/' && value[1] == ':'
    ensures !AllSafe(Split(value, '/'))
  {
    var first := Split(value, '/')[0];
    if '/' in value {
      var i := FirstIndex(value, '/');
      assert first == value[..i] && i >= 2;
      assert first[1] == ':';
    } else {
      assert first == value;
    }
    assert ':' in first;
  }

  lemma StartsUnsafe(value: string)
    requires value == "" || value[0] == '/'
    ensures !AllSafe(Split(value, '/'))
  {
    if value != "" { SplitAtFirst(value, 0); }
    assert Split(value, '/')[0] == "";
  }

  /** The segment loop decides exactly `SafeRelativePath`. */
  method IsSafeRelativePath(value: string) returns (safe: bool)
    ensures safe == SafeRelativePath(value)
  {
    hide IsDevice, Split, FirstIndex, IndexOf;
    if value == "" {
      StartsUnsafe(value);
      return false;
    }
    if value[0] == '/' || value[0] == '\\' {
      if value[0] == '/' { StartsUnsafe(value); }
      return false;
    }
    if |value| >= 2 && IsAlpha(value[0]) && value[1] == ':' {
      DriveIsUnsafe(value);
      return false;
    }
    if '\\' in value || '\0' in value { return false; }
    assert value[0..] == value;
    var start := 0;
    while start <= |value|
      invariant start <= |value|
      invariant AllSafe(Split(value, '/')) <==> AllSafe(Split(value[start..], '/'))
      decreases |value| - start
    {
      var found := IndexOf(value, "/", start);
      var end := if found.Some? then found.value else |value|;
      SegmentStep(value, start, end);
      var part := value[start..end];
      if part == "" || part == "." || part == ".." { return false; }
      if ':' in part { return false; }
      if part[|part| - 1] == ' ' || part[|part| - 1] == '.' { return false; }
      if IsDevice(part) { return false; }
      if end == |value| { return true; }
      start := end + 1;
    }
  }

  lemma SegmentStep(value: string, start: nat, end: nat)
    requires start <= end <= |value|
    requires end == (var found := IndexOf(value, "/", start); if found.Some? then found.value else |value|)
    ensures AllSafe(Split(value[start..], '/')) <==>
            SafeSegment(value[start..end]) && (end < |value| ==> AllSafe(Split(value[end + 1..], '/')))
  {
    hide SafeSegment;
    var rest, part := value[start..], value[start..end];
    SlashFreePart(value, start, end);
    assert part == rest[..end - start];
    if end < |value| {
      SplitAtFirst(rest, end - start);
      assert rest[end - start + 1..] == value[end + 1..];
      AllSafeConcat([part], Split(value[end + 1..], '/'));
    } else {
      assert rest == part && Split(rest, '/') == [part];
    }
    assert AllSafe([part]) <==> SafeSegment([part][0]);
  }

  lemma SlashFreePart(value: string, start: nat, end: nat)
    requires start <= end <= |value|
    requires end == (var found := IndexOf(value, "/", start); if found.Some? then found.value else |value|)
    ensures '/' !in value[start..end]
    ensures end < |value| ==> value[end] == '/'
  {
    forall k | start <= k < end ensures value[k] != '/' {
      assert !MatchesAt(value, "/", k);
      assert value[k..k + 1] == [value[k]];
    }
    if end < |value| {
      assert MatchesAt(value, "/", end) && value[end..end + 1] == [value[end]];
    }
  }

  /** Safety is decided segment by segment, so it is closed under joining and under dropping
      a leading `archiveRoot/`. */
  lemma SafeJoin(a: string, b: string)
    ensures SafeRelativePath(a + "/" + b) <==> SafeRelativePath(a) && SafeRelativePath(b)
  {
    hide SafeSegment;
    SplitConcat(a, '/', b);
    var whole := a + ['/'] + b;
    assert whole == a + "/" + b;
    assert forall c :: c in whole <==> c in a || c == '/' || c in b;
    AllSafeConcat(Split(a, '/'), Split(b, '/'));
  }

  /** Where a walk down from `directory` ends: `.` and empty segments stay, `..` goes up. */
  function Walk(directory: seq<string>, pieces: seq<string>): seq<string>
    decreases |pieces|
  {
    if pieces == [] then directory
    else if pieces[0] == "" || pieces[0] == "." then Walk(directory, pieces[1..])
    else if pieces[0] == ".." then
      Walk(if directory == [] then [] else directory[..|directory| - 1], pieces[1..])
    else Walk(directory + [pieces[0]], pieces[1..])
  }

  lemma {:induction false} WalkSafe(base: seq<string>, pieces: seq<string>)
    requires AllSafe(pieces)
    ensures Walk(base, pieces) == base + pieces
    decreases |pieces|
  {
    hide IsDevice;
    if pieces == [] {
      assert base + pieces == base;
    } else {
      assert SafeSegment(pieces[0]);
      WalkSafe(base + [pieces[0]], pieces[1..]);
      assert base + [pieces[0]] + pieces[1..] == base + pieces;
    }
  }

  /** A safe path never resolves outside its base, nor to the base itself. */
  lemma SafePathStaysBelow(base: seq<string>, path: string)
    requires SafeRelativePath(path)
    ensures base < Walk(base, Split(path, '/'))
  {
    WalkSafe(base, Split(path, '/'));
  }

  predicate IsDeviceName(device: string) {
    || Lower(device) in {"con", "prn", "aux", "nul", "clock$"}
    || (|device| == 4 && Lower(device)[..3] in {"com", "lpt"} && '1' <= device[3] <= '9')
  }

  /** A device name is refused in any case and with any extension. */
  lemma DevicesAreRefused(device: string, extension: string)
    requires IsDeviceName(device)
    ensures !SafeSegment(device) && !SafeSegment(device + "." + extension)
  {
    DeviceHasNoDot(device);
    assert device + "" == device && device + ("." + extension) == device + "." + extension;
    StaysDevice(device, "");
    StaysDevice(device, "." + extension);
    hide IsDevice;
  }

  lemma DeviceHasNoDot(device: string)
    requires IsDeviceName(device)
    ensures device != "" && '.' !in device && device[|device| - 1] != ' '
  {
    var folded := Lower(device);
    assert forall k :: 0 <= k < |device| ==> folded[k] != '.' && folded[k] != ' ' by {
      if |device| == 4 && folded[..3] in {"com", "lpt"} {
        assert folded[0] == folded[..3][0] && folded[1] == folded[..3][1] && folded[2] == folded[..3][2];
      }
    }
  }

  lemma {:induction false} StripKeeps(a: string, b: string)
    requires a != "" && a[|a| - 1] != ' ' && a[|a| - 1] != '.'
    ensures a <= StripTrailing(a + b) <= a + b
    decreases |b|
  {
    if b == "" {
      assert a + b == a;
    } else {
      var front := b[..|b| - 1];
      assert a + b == a + front + [b[|b| - 1]] && (a + b)[..|a + b| - 1] == a + front;
      StripKeeps(a, front);
    }
  }

  lemma StaysDevice(device: string, rest: string)
    requires IsDeviceName(device) && device != "" && '.' !in device && device[|device| - 1] != ' '
    requires rest == "" || rest[0] == '.'
    ensures IsDevice(device + rest)
  {
    assert device[|device| - 1] in device;
    StripKeeps(device, rest);
    var value := StripTrailing(device + rest);
    var more := value[|device|..];
    assert value == device + more && more <= rest;
    if more != "" {
      assert value == device + ['.'] + more[1..];
      FirstIndexConcat(device, '.', more[1..]);
      assert value[|device|] == '.' && value[..|device|] == device;
    } else {
      assert value == device;
    }
    StemOf(device);
    hide StripTrailing, FirstIndex;
  }

  lemma StemOf(device: string)
    requires IsDeviceName(device)
    ensures var stem := Lower(device);
            || stem in {"con", "prn", "aux", "nul", "clock$"}
            || (|stem| == 4 && stem[..3] in {"com", "lpt"} && '1' <= stem[3] <= '9')
  {
  }

  lemma {:induction false} StripIs(s: string)
    ensures StripTrailing(s) <= s
    ensures forall i :: |StripTrailing(s)| <= i < |s| ==> s[i] == ' ' || s[i] == '.'
    decreases |s|
  {
    if s != "" && (s[|s| - 1] == ' ' || s[|s| - 1] == '.') {
      StripIs(s[..|s| - 1]);
      assert s[..|s| - 1] <= s;
    }
  }

  /** Nothing else is taken for a device: a device name is in front, alone or with a dot or a space
      behind it. */
  lemma DevicesStartWithName(segment: string)
    requires IsDevice(segment)
    ensures exists k :: && 0 <= k <= |segment| && IsDeviceName(segment[..k])
                        && (k == |segment| || segment[k] == '.' || segment[k] == ' ')
  {
    var value := StripTrailing(segment);
    StripIs(segment);
    var k := if '.' in value then FirstIndex(value, '.') else |value|;
    assert value[..k] == segment[..k];
    assert value[..|value|] == value;
    assert IsDeviceName(segment[..k]);
    hide StripTrailing, FirstIndex, IsDeviceName;
  }

  /** What else a segment must not be. */
  lemma SegmentIs(part: string)
    ensures SafeSegment(part) <==>
            && part !in {"", ".", ".."} && !IsDevice(part)
            && forall i :: 0 <= i < |part| ==>
                 part[i] != ':' && (i == |part| - 1 ==> part[i] != ' ' && part[i] != '.')
  {
    hide IsDevice;
  }
}
