/** The path policy: which relative protocol paths are accepted, and the lexical join under the
    receive root with its containment test. */
module PathPolicy {
  import opened Options
  import opened Paths

  datatype TargetPlatform = Portable | Windows | MacOS

  datatype PathError =
    | Empty | InvalidUnicodeOrControl | Absolute | InvalidSeparator | EmptyComponent | DotComponent
    | ParentTraversal | ComponentTooLong | PathTooLong | TooDeep | InvalidCharacter | WindowsReservedName
    | WindowsTrailingDotOrSpace | RootNotAbsolute | EscapesRoot

  datatype PathLimits = PathLimits(maxUtf8Bytes: nat, maxComponentUtf8Bytes: nat, maxDepth: nat)

  datatype Validation = Accepted(normalized: string) | Refused(error: PathError)

  // The Unicode operations of QString, and the host the code is built for: its native
  // separator, and what cleanPath does with ".." above the root.
  datatype Qt = Qt(
    nfc: string -> string, utf8Bytes: string -> nat, toUpper: string -> string, toCaseFolded: string -> string,
    windowsHost: bool, keepParent: bool)

  // ---------------------------------------------------------------- validation

  predicate HasControlCharacter(s: string) {
    exists i :: 0 <= i < |s| && (s[i] < ' ' || s[i] == '\U{7F}')
  }

  predicate IsLetter(ch: char) {
    'A' <= ch <= 'Z' || 'a' <= ch <= 'z'
  }

  // ^[A-Za-z]:/
  predicate StartsWithDrive(s: string) {
    |s| >= 3 && IsLetter(s[0]) && s[1] == ':' && s[2] == '/'
  }

  /** The length of the root of an absolute path with '/' separators, 0 for a relative one. */
  function RootLength(qt: Qt, s: string): (k: nat)
    ensures k <= |s|
    ensures k > 0 ==> s[k - 1] == '/'
  {
    if qt.windowsHost then if StartsWithDrive(s) then 3 else 0
    else if s != "" && s[0] == '/' then 1 else 0
  }

  /** QDir::fromNativeSeparators */
  function FromNative(qt: Qt, s: string): (r: string)
    ensures |r| == |s|
    ensures qt.windowsHost ==> '\\' !in r
    ensures !qt.windowsHost || '\\' !in s ==> r == s
  {
    if qt.windowsHost then seq(|s|, i requires 0 <= i < |s| => if s[i] == '\\' then '/' else s[i]) else s
  }

  /** QDir::isAbsolutePath */
  predicate IsAbsolutePath(qt: Qt, s: string) {
    RootLength(qt, FromNative(qt, s)) > 0
  }

  // QString::section('.', 0, 0)
  function Stem(c: string): string {
    if c == "" || c[0] == '.' then "" else [c[0]] + Stem(c[1..])
  }

  function UpperLetter(ch: char): char {
    if 'a' <= ch <= 'z' then ch - 'a' + 'A' else ch
  }

  predicate IsWindowsReservedName(qt: Qt, c: string) {
    var stem := qt.toUpper(Stem(c));
    || stem in {"CON", "PRN", "AUX", "NUL"}
    // ^(COM|LPT)[1-9]$, case-insensitive
    || (|stem| == 4 && '1' <= stem[3] <= '9'
        && [UpperLetter(stem[0]), UpperLetter(stem[1]), UpperLetter(stem[2])] in {"COM", "LPT"})
  }

  predicate EndsWith(c: string, ch: char) {
    c != "" && c[|c| - 1] == ch
  }

  function WindowsRules(qt: Qt, c: string): Option<PathError> {
    if exists i :: 0 <= i < |c| && c[i] in "<>:\"|?*" then Some(InvalidCharacter)
    else if EndsWith(c, '.') || EndsWith(c, ' ') then Some(WindowsTrailingDotOrSpace)
    else if IsWindowsReservedName(qt, c) then Some(WindowsReservedName)
    else None
  }

  /** What is wrong with one component, in the order of the checks. */
  function ComponentError(qt: Qt, c: string, platform: TargetPlatform, limits: PathLimits): Option<PathError> {
    if c == "" then Some(EmptyComponent)
    else if c == "." then Some(DotComponent)
    else if c == ".." then Some(ParentTraversal)
    else if qt.utf8Bytes(c) > limits.maxComponentUtf8Bytes then Some(ComponentTooLong)
    else if HasControlCharacter(c) then Some(InvalidUnicodeOrControl)
    else
      var windows := if platform.MacOS? then None else WindowsRules(qt, c);
      if windows.Some? then windows
      else if platform.MacOS? && ':' in c then Some(InvalidCharacter)
      else None
  }

  function FirstError(qt: Qt, cs: seq<string>, platform: TargetPlatform, limits: PathLimits): Option<PathError> {
    if cs == [] then None
    else
      var e := ComponentError(qt, cs[0], platform, limits);
      if e.Some? then e else FirstError(qt, cs[1..], platform, limits)
  }

  /** PathPolicy::validateRelative */
  function ValidateRelative(qt: Qt, path: string, platform: TargetPlatform, limits: PathLimits): Validation {
    if path == "" then Refused(Empty)
    else if '\\' in path then Refused(InvalidSeparator)
    else if path[0] == '/' || IsAbsolutePath(qt, path) || StartsWithDrive(path) then Refused(Absolute)
    else
      var normalized := qt.nfc(path);
      if HasControlCharacter(normalized) then Refused(InvalidUnicodeOrControl)
      else if qt.utf8Bytes(normalized) > limits.maxUtf8Bytes then Refused(PathTooLong)
      else if |Split(normalized)| > limits.maxDepth then Refused(TooDeep)
      else
        match FirstError(qt, Split(normalized), platform, limits)
        case Some(e) => Refused(e)
        case None => Accepted(normalized)
  }

  lemma {:induction false} NoErrorIff(qt: Qt, cs: seq<string>, platform: TargetPlatform, limits: PathLimits)
    ensures FirstError(qt, cs, platform, limits) == None <==>
      forall i :: 0 <= i < |cs| ==> ComponentError(qt, cs[i], platform, limits) == None
  {
    if cs != [] {
      NoErrorIff(qt, cs[1..], platform, limits);
      assert forall i :: 0 <= i < |cs[1..]| ==> cs[1..][i] == cs[i + 1];
    }
  }

  /** Every component of an accepted path is a plain name without a colon, on all platforms. */
  lemma AcceptedComponents(qt: Qt, path: string, platform: TargetPlatform, limits: PathLimits)
    requires ValidateRelative(qt, path, platform, limits).Accepted?
    ensures var cs := Split(qt.nfc(path));
      forall i :: 0 <= i < |cs| ==>
        Plain(cs[i]) && ':' !in cs[i] && ComponentError(qt, cs[i], platform, limits) == None
  {
    NoErrorIff(qt, Split(qt.nfc(path)), platform, limits);
  }

  /** So an accepted path is relative even after normalization. */
  lemma AcceptedIsRelative(qt: Qt, path: string, platform: TargetPlatform, limits: PathLimits)
    requires ValidateRelative(qt, path, platform, limits).Accepted?
    ensures var n := qt.nfc(path);
      n != "" && n[0] != '/' && !StartsWithDrive(n) && RootLength(qt, n) == 0
  {
    var n := qt.nfc(path);
    AcceptedComponents(qt, path, platform, limits);
    SplitWithout(n, ':');
    assert Plain(Split(n)[0]);
  }

  predicate NfcStable(qt: Qt, s: string) {
    qt.nfc(qt.nfc(s)) == qt.nfc(s) && ('\\' !in s ==> '\\' !in qt.nfc(s))
  }

  /** NFC is idempotent and makes no backslash. */
  ghost predicate NfcLaws(qt: Qt) {
    forall s :: NfcStable(qt, s)
  }

  /** Validating an accepted path's normal form again accepts it unchanged. */
  lemma RevalidationIsStable(qt: Qt, path: string, platform: TargetPlatform, limits: PathLimits)
    requires NfcLaws(qt) && ValidateRelative(qt, path, platform, limits).Accepted?
    ensures var n := ValidateRelative(qt, path, platform, limits).normalized;
      ValidateRelative(qt, n, platform, limits) == Accepted(n)
  {
    AcceptedIsRelative(qt, path, platform, limits);
    assert NfcStable(qt, path);
  }

  /** Portable and Windows validation agree, and a path accepted as Portable is accepted for
      every platform with the same normal form. */
  lemma PortableIsEverywhere(qt: Qt, path: string, platform: TargetPlatform, limits: PathLimits)
    ensures ValidateRelative(qt, path, Portable, limits) == ValidateRelative(qt, path, Windows, limits)
    ensures ValidateRelative(qt, path, Portable, limits).Accepted? ==>
      ValidateRelative(qt, path, platform, limits) == ValidateRelative(qt, path, Portable, limits)
  {
    SameErrors(qt, Split(qt.nfc(path)), limits);
    if ValidateRelative(qt, path, Portable, limits).Accepted? {
      PortableComponents(qt, Split(qt.nfc(path)), platform, limits);
    }
  }

  lemma {:induction false} PortableComponents(qt: Qt, cs: seq<string>, platform: TargetPlatform, limits: PathLimits)
    requires FirstError(qt, cs, Portable, limits) == None
    ensures FirstError(qt, cs, platform, limits) == None
  {
    if cs != [] {
      PortableComponents(qt, cs[1..], platform, limits);
    }
  }

  lemma {:induction false} SameErrors(qt: Qt, cs: seq<string>, limits: PathLimits)
    ensures FirstError(qt, cs, Portable, limits) == FirstError(qt, cs, Windows, limits)
  {
    if cs != [] {
      SameErrors(qt, cs[1..], limits);
    }
  }

  // ---------------------------------------------------------------- the lexical join

  /** QDir::cleanPath on an absolute path. */
  function CleanPath(qt: Qt, path: string): string
    requires IsAbsolutePath(qt, path)
  {
    var p := FromNative(qt, path);
    var k := RootLength(qt, p);
    p[..k] + Joined(Folded([], Split(p[k..]), qt.keepParent))
  }

  function WithSeparator(p: string): string {
    if EndsWith(p, '/') then p else p + "/"
  }

  /** QDir::absoluteFilePath */
  function AbsoluteFilePath(qt: Qt, dir: string, file: string): string {
    if IsAbsolutePath(qt, file) then file else WithSeparator(dir) + file
  }

  /** comparablePath */
  function ComparablePath(qt: Qt, path: string, platform: TargetPlatform): string
    requires IsAbsolutePath(qt, path)
  {
    var p := FromNative(qt, CleanPath(qt, path));
    if platform.Windows? then qt.toCaseFolded(p) else p
  }

  /** The containment test. */
  predicate Contained(candidate: string, root: string) {
    candidate == root || WithSeparator(root) <= candidate
  }

  /** A cleaned absolute path is its root followed by clean components. */
  ghost predicate CleanAbsolute(qt: Qt, p: string, k: nat, cs: seq<string>) {
    && 0 < k <= |p| && RootLength(qt, p) == k
    && Unsplit(cs) && Clean(cs, qt.keepParent)
    && (qt.windowsHost ==> '\\' !in p)
    && p == p[..k] + Joined(cs)
  }

  lemma RootKept(qt: Qt, p: string, q: string)
    requires RootLength(qt, p) > 0 && p[..RootLength(qt, p)] <= q
    ensures RootLength(qt, q) == RootLength(qt, p)
  {
    var k := RootLength(qt, p);
    assert q[..k] == p[..k];
    assert forall i :: 0 <= i < k ==> q[i] == q[..k][i] == p[i];
  }

  lemma CleanPathIsClean(qt: Qt, path: string) returns (k: nat, cs: seq<string>)
    requires IsAbsolutePath(qt, path)
    ensures CleanAbsolute(qt, CleanPath(qt, path), k, cs)
  {
    var p := FromNative(qt, path);
    k := RootLength(qt, p);
    SplitParts(p[k..]);
    cs := Folded([], Split(p[k..]), qt.keepParent);
    FoldedIsClean([], Split(p[k..]), qt.keepParent);
    var c := CleanPath(qt, path);
    assert c[..k] == p[..k];
    RootKept(qt, p, c);
    if qt.windowsHost {
      SplitWithout(p[k..], '\\');
      FoldedWithout([], Split(p[k..]), qt.keepParent, '\\');
      JoinedWithout(cs, '\\');
    }
  }

  /** Cleaning keeps the root and folds the components after it. */
  lemma CleanPathFolds(qt: Qt, root: string, cs: seq<string>)
    requires 0 < |root| == RootLength(qt, root) && Unsplit(cs)
    requires qt.windowsHost ==> '\\' !in root && Without(cs, '\\')
    ensures IsAbsolutePath(qt, root + Joined(cs))
    ensures CleanPath(qt, root + Joined(cs)) == root + Joined(Folded([], cs, qt.keepParent))
  {
    var p := root + Joined(cs);
    assert root[..|root|] == root && p[..|root|] == root && p[|root|..] == Joined(cs);
    RootKept(qt, root, p);
    if qt.windowsHost {
      JoinedWithout(cs, '\\');
    }
    if cs == [] {
      assert Folded([], [""], qt.keepParent) == Folded([], [], qt.keepParent);
    } else {
      SplitJoined(cs);
    }
  }

  /** Cleaning takes a component and a ".." behind it away, whatever stands around them. */
  lemma CleanPathDropsParent(qt: Qt, root: string, a: seq<string>, c: string, b: seq<string>)
    requires 0 < |root| == RootLength(qt, root) && Unsplit(a + [c, ".."] + b) && Plain(c)
    requires qt.windowsHost ==> '\\' !in root && Without(a + [c, ".."] + b, '\\')
    ensures IsAbsolutePath(qt, root + Joined(a + [c, ".."] + b)) && IsAbsolutePath(qt, root + Joined(a + b))
    ensures CleanPath(qt, root + Joined(a + [c, ".."] + b)) == CleanPath(qt, root + Joined(a + b))
  {
    var all, rest := a + [c, ".."] + b, a + b;
    assert forall i :: 0 <= i < |rest| ==> rest[i] == all[if i < |a| then i else i + 2];
    CleanPathFolds(qt, root, all);
    CleanPathFolds(qt, root, rest);
    ParentUndoes(a, c, b, qt.keepParent);
  }

  lemma JoinedFour(a: string, c: string, d: string, b: string)
    ensures Joined([a, c, d, b]) == a + "/" + (c + "/" + (d + "/" + b))
    ensures Joined([a, b]) == a + "/" + b
  {
    assert [a, c, d, b][1..] == [c, d, b] && [c, d, b][1..] == [d, b] && [d, b][1..] == [b] && [a, b][1..] == [b];
    assert Joined([d, b]) == d + "/" + b;
    assert Joined([c, d, b]) == c + "/" + (d + "/" + b);
  }

  /** On a host with '/' separators "/srv/in/../out" becomes "/srv/out". */
  lemma CleanPathParent(qt: Qt, a: string, c: string, b: string)
    requires !qt.windowsHost && Plain(a) && Plain(c) && Plain(b) && Unsplit([a, c, "..", b])
    ensures var path := "/" + (a + "/" + (c + "/" + (".." + "/" + b)));
      IsAbsolutePath(qt, path) && CleanPath(qt, path) == "/" + (a + "/" + b)
  {
    JoinedFour(a, c, "..", b);
    assert [a, c, "..", b][3] == b;
    assert [a] + [c, ".."] + [b] == [a, c, "..", b] && [a] + [b] == [a, b];
    CleanPathDropsParent(qt, "/", [a], c, [b]);
    CleanPathFolds(qt, "/", [a, b]);
    assert [] + [a, b] == [a, b];
    FoldedKeeps([], [a, b], qt.keepParent);
  }

  /** What is already clean stays as it is. */
  lemma CleanIsFixed(qt: Qt, p: string, k: nat, cs: seq<string>)
    requires CleanAbsolute(qt, p, k, cs)
    ensures FromNative(qt, p) == p && IsAbsolutePath(qt, p) && CleanPath(qt, p) == p
  {
    assert p[k..] == Joined(cs);
    if cs == [] {
      assert Folded([], [""], qt.keepParent) == [];
    } else {
      SplitJoined(cs);
      assert [] + cs == cs;
      FoldedKeeps([], cs, qt.keepParent);
    }
  }

  /** Appending plain components to a clean absolute path and cleaning again changes nothing:
      cleanPath is simple concatenation here. */
  lemma CleanExtended(qt: Qt, root: string, k: nat, rs: seq<string>, n: string)
    requires CleanAbsolute(qt, root, k, rs) && n != ""
    requires forall i :: 0 <= i < |Split(n)| ==> Plain(Split(n)[i])
    requires qt.windowsHost ==> '\\' !in n
    ensures var c := WithSeparator(root) + n;
      IsAbsolutePath(qt, c) && CleanPath(qt, c) == c && CleanAbsolute(qt, c, k, rs + Split(n))
  {
    var c := WithSeparator(root) + n;
    SplitParts(n);
    RootSeparator(qt, root, k, rs, n);
    assert root[..k] <= c;
    RootKept(qt, root, c);
    assert c[..k] == root[..k];
    CleanIsFixed(qt, c, k, rs + Split(n));
  }

  /** The separator is added exactly when the root has components. */
  lemma RootSeparator(qt: Qt, root: string, k: nat, rs: seq<string>, n: string)
    requires CleanAbsolute(qt, root, k, rs) && n != ""
    ensures WithSeparator(root) + n == root[..k] + Joined(rs + Split(n))
  {
    SplitParts(n);
    if rs == [] {
      assert root == root[..k] && EndsWith(root, '/');
      assert rs + Split(n) == Split(n);
    } else {
      LastCharacter(rs, qt.keepParent);
      JoinedAppend(rs, Split(n));
      SeparatorAdded(root, root[..k], Joined(rs), n);
    }
  }

  lemma SeparatorAdded(root: string, prefix: string, names: string, n: string)
    requires root == prefix + names && names != "" && names[|names| - 1] != '/'
    ensures WithSeparator(root) + n == prefix + (names + "/" + n)
  {
    assert root[|root| - 1] == names[|names| - 1];
    assert root + "/" + n == prefix + (names + "/" + n);
  }

  lemma {:induction false} LastCharacter(cs: seq<string>, keepParent: bool)
    requires cs != [] && Unsplit(cs) && Clean(cs, keepParent)
    ensures Joined(cs) != "" && Joined(cs)[|Joined(cs)| - 1] != '/'
  {
    if |cs| == 1 {
      assert cs[0] != "";
    } else {
      var front, last := cs[..|cs| - 1], cs[|cs| - 1];
      assert last != "" && '/' !in last;
      assert cs == front + [last];
      JoinedAppend(front, [last]);
    }
  }

  /** The string containment test is exactly containment of components: for clean absolute
      paths it holds if and only if they share the root and the first path's components are
      the second's first ones. */
  lemma ContainedIff(qt: Qt, root: string, k: nat, rs: seq<string>, c: string, j: nat, cs: seq<string>)
    requires CleanAbsolute(qt, root, k, rs) && CleanAbsolute(qt, c, j, cs)
    ensures Contained(c, root) <==> root[..k] == c[..j] && rs <= cs
  {
    if root[..k] <= c {
      RootKept(qt, root, c);
      assert c[..k] == root[..k];
      assert c == root[..k] + Joined(cs);
      if rs == [] {
        assert EndsWith(root, '/');
      } else {
        LastCharacter(rs, qt.keepParent);
        assert !EndsWith(root, '/');
        JoinedPrefixIff(rs, cs);
        assert root + "/" == root[..k] + (Joined(rs) + "/");
        assert root + "/" <= c <==> Joined(rs) + "/" <= Joined(cs);
        SameJoined(qt, rs, cs);
      }
    } else {
      assert root[..k] <= root <= WithSeparator(root);
    }
  }

  lemma SameJoined(qt: Qt, rs: seq<string>, cs: seq<string>)
    requires Unsplit(rs) && Unsplit(cs) && rs != [] && Clean(rs, qt.keepParent)
    ensures Joined(rs) == Joined(cs) <==> rs == cs
  {
    LastCharacter(rs, qt.keepParent);
    if Joined(rs) == Joined(cs) {
      SplitJoined(rs);
      SplitJoined(cs);
    }
  }

  predicate FoldsPiecewise(qt: Qt, a: string, b: string) {
    qt.toCaseFolded(a + b) == qt.toCaseFolded(a) + qt.toCaseFolded(b)
  }

  /** Case folding works character by character and keeps the separator. */
  ghost predicate FoldLaws(qt: Qt) {
    (forall a, b :: FoldsPiecewise(qt, a, b)) && qt.toCaseFolded("/") == "/"
  }

  lemma FoldedContained(qt: Qt, root: string, n: string)
    requires FoldLaws(qt)
    ensures Contained(qt.toCaseFolded(WithSeparator(root) + n), qt.toCaseFolded(root))
  {
    var f := qt.toCaseFolded;
    if EndsWith(root, '/') {
      var front := root[..|root| - 1];
      assert root == front + "/";
      assert FoldsPiecewise(qt, front, "/") && FoldsPiecewise(qt, root, n);
      assert EndsWith(f(root), '/');
    } else {
      assert FoldsPiecewise(qt, root, "/") && FoldsPiecewise(qt, root + "/", n);
      assert FoldsPiecewise(qt, root, "/" + n) && FoldsPiecewise(qt, "/", n);
      assert root + "/" + n == root + ("/" + n);
    }
  }

  lemma JoinIsClean(qt: Qt, absoluteRoot: string, relativePath: string, platform: TargetPlatform, limits: PathLimits)
    requires NfcLaws(qt) && IsAbsolutePath(qt, absoluteRoot)
    requires ValidateRelative(qt, relativePath, platform, limits).Accepted?
    ensures var root := CleanPath(qt, absoluteRoot);
      var c := AbsoluteFilePath(qt, root, qt.nfc(relativePath));
      && c == WithSeparator(root) + qt.nfc(relativePath)
      && IsAbsolutePath(qt, root) && CleanPath(qt, root) == root == FromNative(qt, root)
      && IsAbsolutePath(qt, c) && CleanPath(qt, c) == c == FromNative(qt, c)
  {
    var n, root := qt.nfc(relativePath), CleanPath(qt, absoluteRoot);
    assert NfcStable(qt, relativePath);
    AcceptedComponents(qt, relativePath, platform, limits);
    AcceptedIsRelative(qt, relativePath, platform, limits);
    var k, rs := CleanPathIsClean(qt, absoluteRoot);
    CleanIsFixed(qt, root, k, rs);
    CleanExtended(qt, root, k, rs, n);
    CleanIsFixed(qt, WithSeparator(root) + n, k, rs + Split(n));
  }

  /** The test on the comparable forms of the cleaned root and the candidate. */
  predicate Inside(qt: Qt, root: string, candidate: string, platform: TargetPlatform)
    requires IsAbsolutePath(qt, root) && IsAbsolutePath(qt, candidate)
  {
    Contained(ComparablePath(qt, candidate, platform), ComparablePath(qt, root, platform))
  }

  /** Between clean absolute paths the test is containment of components; for the Windows platform it
      is made on the case-folded paths. */
  lemma InsideIff(
    qt: Qt, root: string, k: nat, rs: seq<string>, c: string, j: nat, cs: seq<string>, platform: TargetPlatform)
    requires CleanAbsolute(qt, root, k, rs) && CleanAbsolute(qt, c, j, cs)
    ensures IsAbsolutePath(qt, root) && IsAbsolutePath(qt, c)
    ensures !platform.Windows? ==> (Inside(qt, root, c, platform) <==> root[..k] == c[..j] && rs <= cs)
    ensures platform.Windows? ==>
      var file, dir := qt.toCaseFolded(c), qt.toCaseFolded(root);
      Inside(qt, root, c, platform) <==> file == dir || dir + "/" <= file || (EndsWith(dir, '/') && dir <= file)
  {
    CleanIsFixed(qt, root, k, rs);
    CleanIsFixed(qt, c, j, cs);
    ContainedIff(qt, root, k, rs, c, j, cs);
    var dir := qt.toCaseFolded(root);
    assert dir <= dir + "/";
  }

  /** The candidate of an accepted path is the cleaned root, a separator and the normal form, and
      passes the containment test, with or without case folding. */
  lemma JoinStaysInside(
    qt: Qt, absoluteRoot: string, relativePath: string, platform: TargetPlatform, limits: PathLimits)
    returns (root: string, file: string)
    requires NfcLaws(qt) && FoldLaws(qt) && IsAbsolutePath(qt, absoluteRoot)
    requires ValidateRelative(qt, relativePath, platform, limits).Accepted?
    ensures root == CleanPath(qt, absoluteRoot) && file == AbsoluteFilePath(qt, root, qt.nfc(relativePath))
    ensures file == WithSeparator(root) + qt.nfc(relativePath)
    ensures IsAbsolutePath(qt, root) && IsAbsolutePath(qt, file) && CleanPath(qt, file) == file
    ensures Inside(qt, root, file, platform)
  {
    root := CleanPath(qt, absoluteRoot);
    file := AbsoluteFilePath(qt, root, qt.nfc(relativePath));
    JoinIsClean(qt, absoluteRoot, relativePath, platform, limits);
    FoldedContained(qt, root, qt.nfc(relativePath));
  }

  lemma {:induction false} NoComponentEscapes(qt: Qt, cs: seq<string>, platform: TargetPlatform, limits: PathLimits)
    ensures FirstError(qt, cs, platform, limits) !in {Some(EscapesRoot), Some(RootNotAbsolute)}
  {
    if cs != [] {
      NoComponentEscapes(qt, cs[1..], platform, limits);
    }
  }

  lemma ValidationErrors(qt: Qt, path: string, platform: TargetPlatform, limits: PathLimits)
    ensures ValidateRelative(qt, path, platform, limits) !in {Refused(EscapesRoot), Refused(RootNotAbsolute)}
  {
    NoComponentEscapes(qt, Split(qt.nfc(path)), platform, limits);
  }

  // An output parameter passed by reference.
  class OutputPath {
    var path: string

    constructor ()
      ensures path == ""
    {
      path := "";
    }
  }

  /** The candidate, with the answer of the containment test. */
  method PlaceUnder(qt: Qt, cleanedRoot: string, normalized: string, platform: TargetPlatform)
    returns (candidate: string, inside: bool)
    requires var file := AbsoluteFilePath(qt, cleanedRoot, normalized);
      && IsAbsolutePath(qt, cleanedRoot) && IsAbsolutePath(qt, file) && IsAbsolutePath(qt, CleanPath(qt, file))
    ensures candidate == CleanPath(qt, AbsoluteFilePath(qt, cleanedRoot, normalized))
    ensures inside <==> Inside(qt, cleanedRoot, candidate, platform)
  {
    candidate := CleanPath(qt, AbsoluteFilePath(qt, cleanedRoot, normalized));
    var rootComparable := ComparablePath(qt, cleanedRoot, platform);
    var candidateComparable := ComparablePath(qt, candidate, platform);
    var rootWithSeparator := rootComparable;
    if !EndsWith(rootWithSeparator, '/') {
      rootWithSeparator := rootWithSeparator + "/";
    }
    inside := candidateComparable == rootComparable || rootWithSeparator <= candidateComparable;
  }

  /** For an accepted path the candidate is the root, a separator and the normal form. */
  method PlaceAccepted(
    qt: Qt, absoluteRoot: string, relativePath: string, platform: TargetPlatform, limits: PathLimits)
    returns (candidate: string, inside: bool)
    requires NfcLaws(qt) && FoldLaws(qt) && IsAbsolutePath(qt, absoluteRoot)
    requires ValidateRelative(qt, relativePath, platform, limits).Accepted?
    ensures candidate == WithSeparator(CleanPath(qt, absoluteRoot)) + qt.nfc(relativePath) && inside
  {
    ghost var root, file := JoinStaysInside(qt, absoluteRoot, relativePath, platform, limits);
    candidate, inside := PlaceUnder(qt, CleanPath(qt, absoluteRoot), qt.nfc(relativePath), platform);
  }

  /** PathPolicy::joinLexicallyUnderRoot. Under an absolute root every accepted path is joined:
      the output is the cleaned root, a separator and the normal form, so the EscapesRoot
      branch is never taken. */
  method JoinLexicallyUnderRoot(
    qt: Qt, absoluteRoot: string, relativePath: string, platform: TargetPlatform, output: OutputPath,
    limits: PathLimits)
    returns (r: Validation)
    requires NfcLaws(qt) && FoldLaws(qt)
    modifies output
    ensures r != Refused(EscapesRoot)
    ensures r == Refused(RootNotAbsolute) <==> !IsAbsolutePath(qt, absoluteRoot)
    ensures IsAbsolutePath(qt, absoluteRoot) ==> r == ValidateRelative(qt, relativePath, platform, limits)
    ensures output.path == if r.Accepted? then WithSeparator(CleanPath(qt, absoluteRoot)) + r.normalized else ""
  {
    output.path := "";
    if !IsAbsolutePath(qt, absoluteRoot) {
      return Refused(RootNotAbsolute);
    }
    ValidationErrors(qt, relativePath, platform, limits);
    var validated := ValidateRelative(qt, relativePath, platform, limits);
    if validated.Refused? {
      return validated;
    }
    var candidate, inside := PlaceAccepted(qt, absoluteRoot, relativePath, platform, limits);
    if !inside {
      return Refused(EscapesRoot);
    }
    output.path := candidate;
    r := validated;
  }

  /** Under one root, accepted paths are joined to the same output only if they have the same
      normal form. */
  lemma JoinIsInjective(
    qt: Qt, absoluteRoot: string, a: string, b: string, platform: TargetPlatform, limits: PathLimits)
    requires NfcLaws(qt) && IsAbsolutePath(qt, absoluteRoot)
    requires ValidateRelative(qt, a, platform, limits).Accepted?
    requires ValidateRelative(qt, b, platform, limits).Accepted?
    ensures var root := CleanPath(qt, absoluteRoot);
      var x, y := AbsoluteFilePath(qt, root, qt.nfc(a)), AbsoluteFilePath(qt, root, qt.nfc(b));
      && IsAbsolutePath(qt, x) && IsAbsolutePath(qt, y)
      && (CleanPath(qt, x) == CleanPath(qt, y) ==> qt.nfc(a) == qt.nfc(b))
  {
    JoinIsClean(qt, absoluteRoot, a, platform, limits);
    JoinIsClean(qt, absoluteRoot, b, platform, limits);
    SameTail(WithSeparator(CleanPath(qt, absoluteRoot)), qt.nfc(a), qt.nfc(b));
  }

  lemma SameTail(front: string, a: string, b: string)
    ensures front + a == front + b <==> a == b
  {
    assert a == (front + a)[|front|..] && b == (front + b)[|front|..];
  }

  /** The output of a join has the cleaned root's components followed by the path's own. */
  lemma JoinedComponents(
    qt: Qt, absoluteRoot: string, relativePath: string, platform: TargetPlatform, limits: PathLimits)
    returns (k: nat, rs: seq<string>)
    requires NfcLaws(qt) && IsAbsolutePath(qt, absoluteRoot)
    requires ValidateRelative(qt, relativePath, platform, limits).Accepted?
    ensures var root, n := CleanPath(qt, absoluteRoot), qt.nfc(relativePath);
      CleanAbsolute(qt, root, k, rs) && CleanAbsolute(qt, WithSeparator(root) + n, k, rs + Split(n))
  {
    assert NfcStable(qt, relativePath);
    AcceptedComponents(qt, relativePath, platform, limits);
    k, rs := CleanPathIsClean(qt, absoluteRoot);
    CleanExtended(qt, CleanPath(qt, absoluteRoot), k, rs, qt.nfc(relativePath));
  }
}
