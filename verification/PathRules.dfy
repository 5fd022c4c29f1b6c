/** What the path policy refuses, rule by rule and in which order, from the characters of a path. */
module PathRules {
  import opened Options
  import opened Paths
  import opened PathPolicy

  // ---------------------------------------------------------------- the rules

  predicate Control(s: string) {
    exists ch :: ch in s && (ch < ' ' || ch == '\U{7F}')
  }

  predicate ForbiddenOnWindows(ch: char) {
    ch == '<' || ch == '>' || ch == ':' || ch == '"' || ch == '|' || ch == '?' || ch == '*'
  }

  // The part of a name before its first dot.
  ghost predicate IsStem(stem: string, c: string) {
    stem <= c && '.' !in stem && (stem != c ==> c[|stem|] == '.')
  }

  predicate IsDevice(name: string) {
    || name == "CON" || name == "PRN" || name == "AUX" || name == "NUL"
    || (|name| == 4 && '1' <= name[3] <= '9'
        && ((name[0] in "Cc" && name[1] in "Oo" && name[2] in "Mm")
            || (name[0] in "Ll" && name[1] in "Pp" && name[2] in "Tt")))
  }

  ghost predicate NamesDevice(qt: Qt, c: string) {
    exists stem :: IsStem(stem, c) && IsDevice(qt.toUpper(stem))
  }

  predicate HasDrive(s: string) {
    |s| >= 3 && ('A' <= s[0] <= 'Z' || 'a' <= s[0] <= 'z') && s[1] == ':' && s[2] == '/'
  }

  /** Which paths break which rule for whole paths. */
  ghost predicate PathBreaks(qt: Qt, path: string, limits: PathLimits, e: PathError) {
    match e
    case Empty => path == ""
    case InvalidSeparator => '\\' in path
    case Absolute => "/" <= path || HasDrive(path)
    case InvalidUnicodeOrControl => Control(qt.nfc(path))
    case PathTooLong => qt.utf8Bytes(qt.nfc(path)) > limits.maxUtf8Bytes
    case TooDeep => |Split(qt.nfc(path))| > limits.maxDepth
    case _ => false
  }

  /** Which components break which rule for components. */
  ghost predicate ComponentBreaks(qt: Qt, c: string, platform: TargetPlatform, limits: PathLimits, e: PathError) {
    match e
    case EmptyComponent => c == ""
    case DotComponent => c == "."
    case ParentTraversal => c == ".."
    case ComponentTooLong => qt.utf8Bytes(c) > limits.maxComponentUtf8Bytes
    case InvalidUnicodeOrControl => Control(c)
    case InvalidCharacter => if platform.MacOS? then ':' in c else exists ch :: ch in c && ForbiddenOnWindows(ch)
    case WindowsTrailingDotOrSpace => !platform.MacOS? && c != "" && (c[|c| - 1] == '.' || c[|c| - 1] == ' ')
    case WindowsReservedName => !platform.MacOS? && NamesDevice(qt, c)
    case _ => false
  }

  // The rules in the order in which they are checked.
  const PATH_RULES := [Empty, InvalidSeparator, Absolute, InvalidUnicodeOrControl, PathTooLong, TooDeep]

  const COMPONENT_RULES :=
    [EmptyComponent, DotComponent, ParentTraversal, ComponentTooLong, InvalidUnicodeOrControl,
     InvalidCharacter, WindowsTrailingDotOrSpace, WindowsReservedName]

  ghost predicate NoneBroken(rules: seq<PathError>, n: nat, breaks: PathError -> bool)
    requires n <= |rules|
  {
    forall i :: 0 <= i < n ==> !breaks(rules[i])
  }

  ghost predicate FirstBroken(rules: seq<PathError>, breaks: PathError -> bool, e: PathError) {
    exists i :: 0 <= i < |rules| && rules[i] == e && breaks(rules[i]) && NoneBroken(rules, i, breaks)
  }

  ghost function PathRule(qt: Qt, path: string, limits: PathLimits): PathError -> bool {
    e => PathBreaks(qt, path, limits, e)
  }

  ghost function ComponentRule(qt: Qt, c: string, platform: TargetPlatform, limits: PathLimits): PathError -> bool {
    e => ComponentBreaks(qt, c, platform, limits, e)
  }

  lemma FirstIsOne(rules: seq<PathError>, breaks: PathError -> bool, i: nat, e: PathError)
    requires i < |rules| && breaks(rules[i]) && NoneBroken(rules, i, breaks)
    ensures FirstBroken(rules, breaks, e) <==> e == rules[i]
    ensures !NoneBroken(rules, |rules|, breaks)
  {
  }

  // ---------------------------------------------------------------- components

  lemma ControlMeans(s: string)
    ensures HasControlCharacter(s) <==> Control(s)
  {
    if HasControlCharacter(s) {
      var i :| 0 <= i < |s| && (s[i] < ' ' || s[i] == '\U{7F}');
      assert s[i] in s;
    }
  }

  lemma {:induction false} StemIsOne(c: string, stem: string)
    ensures IsStem(stem, c) <==> stem == Stem(c)
  {
    if c == "" || c[0] == '.' {
      assert stem != "" && stem <= c ==> stem[0] == c[0] && stem[0] in stem;
    } else if stem != "" {
      StemIsOne(c[1..], stem[1..]);
      assert stem == [stem[0]] + stem[1..] && c == [c[0]] + c[1..];
      assert stem <= c <==> stem[0] == c[0] && stem[1..] <= c[1..];
      assert '.' in stem <==> stem[0] == '.' || '.' in stem[1..];
    }
  }

  lemma ReservedMeans(qt: Qt, c: string)
    ensures IsWindowsReservedName(qt, c) <==> NamesDevice(qt, c)
  {
    var stem := Stem(c);
    StemIsOne(c, stem);
    DeviceMeans(qt.toUpper(stem));
    if NamesDevice(qt, c) {
      var other :| IsStem(other, c) && IsDevice(qt.toUpper(other));
      StemIsOne(c, other);
    }
    assert IsWindowsReservedName(qt, c) <==> IsDevice(qt.toUpper(stem));
  }

  lemma DeviceMeans(name: string)
    ensures IsDevice(name) <==>
      || name in {"CON", "PRN", "AUX", "NUL"}
      || (|name| == 4 && '1' <= name[3] <= '9'
          && [UpperLetter(name[0]), UpperLetter(name[1]), UpperLetter(name[2])] in {"COM", "LPT"})
  {
    if |name| == 4 {
      UpperMeans(name[0], 'C');
      UpperMeans(name[1], 'O');
      UpperMeans(name[2], 'M');
      UpperMeans(name[0], 'L');
      UpperMeans(name[1], 'P');
      UpperMeans(name[2], 'T');
      var up := [UpperLetter(name[0]), UpperLetter(name[1]), UpperLetter(name[2])];
      assert up == "COM" <==> up[0] == 'C' && up[1] == 'O' && up[2] == 'M';
      assert up == "LPT" <==> up[0] == 'L' && up[1] == 'P' && up[2] == 'T';
    }
  }

  lemma UpperMeans(ch: char, up: char)
    requires 'A' <= up <= 'Z'
    ensures UpperLetter(ch) == up <==> ch == up || ch == up - 'A' + 'a'
  {
  }

  ghost function FirstOf(breaks: PathError -> bool): Option<PathError> {
    if breaks(EmptyComponent) then Some(EmptyComponent)
    else if breaks(DotComponent) then Some(DotComponent)
    else if breaks(ParentTraversal) then Some(ParentTraversal)
    else if breaks(ComponentTooLong) then Some(ComponentTooLong)
    else if breaks(InvalidUnicodeOrControl) then Some(InvalidUnicodeOrControl)
    else if breaks(InvalidCharacter) then Some(InvalidCharacter)
    else if breaks(WindowsTrailingDotOrSpace) then Some(WindowsTrailingDotOrSpace)
    else if breaks(WindowsReservedName) then Some(WindowsReservedName)
    else None
  }

  lemma FirstOfMeans(breaks: PathError -> bool)
    ensures match FirstOf(breaks)
      case Some(e) => FirstBroken(COMPONENT_RULES, breaks, e)
      case None => NoneBroken(COMPONENT_RULES, |COMPONENT_RULES|, breaks)
  {
    match FirstOf(breaks)
    case Some(e) =>
      var k := ComponentPlace(e);
      assert COMPONENT_RULES[k] == e && breaks(e);
      FirstIsOne(COMPONENT_RULES, breaks, k, e);
    case None =>
  }

  /** One component: which rule it breaks first, or that it breaks none. */
  lemma ComponentErrorMeans(qt: Qt, c: string, platform: TargetPlatform, limits: PathLimits)
    ensures var breaks := ComponentRule(qt, c, platform, limits);
      match ComponentError(qt, c, platform, limits)
      case Some(e) => FirstBroken(COMPONENT_RULES, breaks, e)
      case None => NoneBroken(COMPONENT_RULES, |COMPONENT_RULES|, breaks)
  {
    ComponentErrorIsFirst(qt, c, platform, limits);
    FirstOfMeans(ComponentRule(qt, c, platform, limits));
  }

  lemma ComponentErrorIsFirst(qt: Qt, c: string, platform: TargetPlatform, limits: PathLimits)
    ensures ComponentError(qt, c, platform, limits) == FirstOf(ComponentRule(qt, c, platform, limits))
  {
    if Plain(c) && !platform.MacOS? {
      PlainOnWindows(qt, c, platform, limits);
    } else {
      ControlMeans(c);
    }
  }

  lemma PlainOnWindows(qt: Qt, c: string, platform: TargetPlatform, limits: PathLimits)
    requires Plain(c) && !platform.MacOS?
    ensures ComponentError(qt, c, platform, limits) == FirstOf(ComponentRule(qt, c, platform, limits))
  {
    ControlMeans(c);
    WindowsRulesMean(qt, c);
  }

  function ComponentPlace(e: PathError): nat {
    match e
    case EmptyComponent => 0
    case DotComponent => 1
    case ParentTraversal => 2
    case ComponentTooLong => 3
    case InvalidUnicodeOrControl => 4
    case InvalidCharacter => 5
    case WindowsTrailingDotOrSpace => 6
    case _ => 7
  }

  lemma WindowsRulesMean(qt: Qt, c: string)
    ensures var r, forbidden := WindowsRules(qt, c), exists ch :: ch in c && ForbiddenOnWindows(ch);
      var trailing := c != "" && (c[|c| - 1] == '.' || c[|c| - 1] == ' ');
      && (r == Some(InvalidCharacter) <==> forbidden)
      && (r == Some(WindowsTrailingDotOrSpace) <==> !forbidden && trailing)
      && (r == Some(WindowsReservedName) <==> !forbidden && !trailing && NamesDevice(qt, c))
      && (r == None <==> !forbidden && !trailing && !NamesDevice(qt, c))
  {
    ReservedMeans(qt, c);
    InvalidMeans(c);
  }

  lemma InvalidMeans(c: string)
    ensures (exists i :: 0 <= i < |c| && c[i] in "<>:\"|?*") <==> exists ch :: ch in c && ForbiddenOnWindows(ch)
  {
    if exists i :: 0 <= i < |c| && c[i] in "<>:\"|?*" {
      var i :| 0 <= i < |c| && c[i] in "<>:\"|?*";
      assert c[i] in c && ForbiddenOnWindows(c[i]);
    }
  }

  // ---------------------------------------------------------------- the scan over the components

  /** The component breaks no rule. */
  ghost predicate Blameless(qt: Qt, c: string, platform: TargetPlatform, limits: PathLimits) {
    NoneBroken(COMPONENT_RULES, |COMPONENT_RULES|, ComponentRule(qt, c, platform, limits))
  }

  /** The k-th component is the first to break a rule, and e is the first rule it breaks. */
  ghost predicate Blamed(
    qt: Qt, cs: seq<string>, k: nat, platform: TargetPlatform, limits: PathLimits, e: PathError)
    requires k < |cs|
  {
    && FirstBroken(COMPONENT_RULES, ComponentRule(qt, cs[k], platform, limits), e)
    && forall i :: 0 <= i < k ==> Blameless(qt, cs[i], platform, limits)
  }

  lemma {:induction false} ScanMeans(qt: Qt, cs: seq<string>, platform: TargetPlatform, limits: PathLimits)
    returns (k: nat)
    ensures match FirstError(qt, cs, platform, limits)
      case Some(e) => k < |cs| && Blamed(qt, cs, k, platform, limits, e)
      case None => forall i :: 0 <= i < |cs| ==> Blameless(qt, cs[i], platform, limits)
  {
    k := 0;
    if cs != [] {
      ComponentErrorMeans(qt, cs[0], platform, limits);
      if ComponentError(qt, cs[0], platform, limits).None? {
        var j := ScanMeans(qt, cs[1..], platform, limits);
        k := j + 1;
        BlamelessFirst(qt, cs, platform, limits);
      }
    }
  }

  lemma BlamelessFirst(qt: Qt, cs: seq<string>, platform: TargetPlatform, limits: PathLimits)
    requires cs != [] && Blameless(qt, cs[0], platform, limits)
    ensures forall k, e {:trigger Blamed(qt, cs[1..], k, platform, limits, e)} ::
      0 <= k < |cs[1..]| && Blamed(qt, cs[1..], k, platform, limits, e) ==>
        Blamed(qt, cs, k + 1, platform, limits, e)
    ensures (forall i :: 0 <= i < |cs[1..]| ==> Blameless(qt, cs[1..][i], platform, limits)) ==>
      forall i :: 0 <= i < |cs| ==> Blameless(qt, cs[i], platform, limits)
  {
    assert forall i :: 1 <= i < |cs| ==> cs[i] == cs[1..][i - 1];
  }

  lemma BlamedOnce(
    qt: Qt, cs: seq<string>, platform: TargetPlatform, limits: PathLimits, j: nat, d: PathError, k: nat, e: PathError)
    requires j < |cs| && k < |cs|
    requires Blamed(qt, cs, j, platform, limits, d) && Blamed(qt, cs, k, platform, limits, e)
    ensures j == k && d == e
  {
    BlamedNotBlameless(qt, cs[j], platform, limits, d);
    BlamedNotBlameless(qt, cs[k], platform, limits, e);
    assert j == k;
  }

  lemma BlamedNotBlameless(qt: Qt, c: string, platform: TargetPlatform, limits: PathLimits, e: PathError)
    requires FirstBroken(COMPONENT_RULES, ComponentRule(qt, c, platform, limits), e)
    ensures !Blameless(qt, c, platform, limits)
  {
  }

  // ---------------------------------------------------------------- whole paths

  function PathPlace(e: PathError): nat {
    match e
    case Empty => 0
    case InvalidSeparator => 1
    case Absolute => 2
    case InvalidUnicodeOrControl => 3
    case PathTooLong => 4
    case _ => 5
  }

  /** What is wrong with a path before its components are looked at. */
  ghost function FirstOfPath(breaks: PathError -> bool): Option<PathError> {
    if breaks(Empty) then Some(Empty)
    else if breaks(InvalidSeparator) then Some(InvalidSeparator)
    else if breaks(Absolute) then Some(Absolute)
    else if breaks(InvalidUnicodeOrControl) then Some(InvalidUnicodeOrControl)
    else if breaks(PathTooLong) then Some(PathTooLong)
    else if breaks(TooDeep) then Some(TooDeep)
    else None
  }

  lemma FirstOfPathMeans(breaks: PathError -> bool)
    ensures match FirstOfPath(breaks)
      case Some(d) =>
        && !NoneBroken(PATH_RULES, |PATH_RULES|, breaks)
        && forall e :: FirstBroken(PATH_RULES, breaks, e) <==> e == d
      case None => NoneBroken(PATH_RULES, |PATH_RULES|, breaks) && forall e :: !FirstBroken(PATH_RULES, breaks, e)
  {
    match FirstOfPath(breaks)
    case Some(d) =>
      var k := PathPlace(d);
      assert PATH_RULES[k] == d && breaks(d);
      forall e
        ensures FirstBroken(PATH_RULES, breaks, e) <==> e == d
      {
        FirstIsOne(PATH_RULES, breaks, k, e);
      }
      FirstIsOne(PATH_RULES, breaks, k, d);
    case None =>
  }

  /** QDir::isAbsolutePath by the characters of a path. */
  lemma AbsoluteIff(qt: Qt, s: string)
    ensures IsAbsolutePath(qt, s) <==>
      if qt.windowsHost then |s| >= 3 && HasDrive(s[..2] + "/") && (s[2] == '/' || s[2] == '\\')
      else "/" <= s
  {
  }

  lemma ValidatedMeans(qt: Qt, path: string, platform: TargetPlatform, limits: PathLimits)
    ensures ValidateRelative(qt, path, platform, limits) ==
      match FirstOfPath(PathRule(qt, path, limits))
      case Some(e) => Refused(e)
      case None =>
        match FirstError(qt, Split(qt.nfc(path)), platform, limits)
        case Some(e) => Refused(e)
        case None => Accepted(qt.nfc(path))
  {
    ControlMeans(qt.nfc(path));
  }

  /** A path is accepted exactly when it breaks no rule for paths and no component of its normal form
      breaks a rule for components, and then as that normal form. */
  lemma AcceptedIff(qt: Qt, path: string, platform: TargetPlatform, limits: PathLimits)
    ensures var n, r := qt.nfc(path), ValidateRelative(qt, path, platform, limits);
      && (r.Accepted? <==>
            && NoneBroken(PATH_RULES, |PATH_RULES|, PathRule(qt, path, limits))
            && forall i :: 0 <= i < |Split(n)| ==> Blameless(qt, Split(n)[i], platform, limits))
      && (r.Accepted? ==> r.normalized == n)
  {
    ValidatedMeans(qt, path, platform, limits);
    FirstOfPathMeans(PathRule(qt, path, limits));
    var k := ScanMeans(qt, Split(qt.nfc(path)), platform, limits);
    if FirstError(qt, Split(qt.nfc(path)), platform, limits).Some? {
      BlamedNotBlameless(
        qt, Split(qt.nfc(path))[k], platform, limits, FirstError(qt, Split(qt.nfc(path)), platform, limits).value);
    }
  }

  /** A path is refused for the first rule for paths that it breaks, or else for the first rule that
      the first component to break one breaks. */
  lemma RefusedIff(qt: Qt, path: string, platform: TargetPlatform, limits: PathLimits, e: PathError)
    ensures var cs, breaks := Split(qt.nfc(path)), PathRule(qt, path, limits);
      ValidateRelative(qt, path, platform, limits) == Refused(e) <==>
        || FirstBroken(PATH_RULES, breaks, e)
        || (&& NoneBroken(PATH_RULES, |PATH_RULES|, breaks)
            && exists k :: 0 <= k < |cs| && Blamed(qt, cs, k, platform, limits, e))
  {
    var cs := Split(qt.nfc(path));
    ValidatedMeans(qt, path, platform, limits);
    FirstOfPathMeans(PathRule(qt, path, limits));
    var k := ScanMeans(qt, cs, platform, limits);
    if j :| 0 <= j < |cs| && Blamed(qt, cs, j, platform, limits, e) {
      match FirstError(qt, cs, platform, limits)
      case Some(d) => BlamedOnce(qt, cs, platform, limits, j, e, k, d);
      case None => BlamedNotBlameless(qt, cs[j], platform, limits, e);
    }
  }
}
