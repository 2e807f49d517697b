/**
 The path algebra: segments, parents, the platform's own paths and the routing of a
 path to Ethereum storage.
 */
module Paths {
  import opened Cells

  const ETH_ACCOUNT_PREFIX: string := "blcc://eth1.0/account/"
  const ETH_ACCOUNT_PREFIX_LENGTH: nat := 22
  const ETH_ACCOUNT_LENGTH: nat := 42
  const ETH_ACCOUNT_FULL_LENGTH: nat := 64

  const PATH_ROOT: string := "/"
  const PATH_CODE: string := "/code"
  const PATH_NONCE: string := "/nonce"
  const PATH_BALANCE: string := "/balance"
  const PATH_FUNC_PROFILE: string := "/profiles/"
  const PATH_STORAGE_ROOT: string := "/storage/"
  const PATH_STORAGE_CONTAINER: string := "/storage/container/"
  const PATH_STORAGE_NATIVE: string := "/storage/native/"

  predicate HasSuffix(s: string, t: string) {
    |t| <= |s| && s[|s| - |t|..] == t
  }

  predicate HasPrefix(s: string, t: string) {
    |t| <= |s| && s[..|t|] == t
  }

  // Neither of the two wildcard forms, which a write treats in its own way.
  predicate IsPlain(path: string) {
    !HasSuffix(path, "*") && !HasSuffix(path, "[:]")
  }

  lemma PlainIff(path: string)
    ensures IsPlain(path) <==>
              || path == ""
              || (path[|path| - 1] != '*' && (|path| < 3 || path[|path| - 3..] != ['[', ':', ']']))
  {
    if path != "" {
      assert path[|path| - 1..] == [path[|path| - 1]];
    }
  }

  // ------------------------------------------------------------ segments

  // What is left of a path, given the piece being collected, as non-empty pieces.
  function Pieces(piece: string, rest: string): seq<string>
    decreases |rest|
  {
    if rest == "" then (if piece == "" then [] else [piece])
    else if rest[0] == '/' then (if piece == "" then [] else [piece]) + Pieces("", rest[1..])
    else Pieces(piece + [rest[0]], rest[1..])
  }

  // The non-empty "/"-separated pieces of a path.
  function Segments(path: string): seq<string> {
    Pieces("", path)
  }

  lemma PiecesStep(piece: string, path: string, i: nat)
    requires i < |path|
    ensures Pieces(piece, path[i..]) ==
            if path[i] == '/' then (if piece == "" then [] else [piece]) + Pieces("", path[i + 1..])
            else Pieces(piece + [path[i]], path[i + 1..])
  {
    assert path[i..][0] == path[i] && path[i..][1..] == path[i + 1..];
  }

  // The piece being collected.
  function Collected(path: string, start: int, i: nat): string
    requires -1 <= start <= i <= |path|
  {
    if start == -1 then "" else path[start..i]
  }

  // What is done after `i` characters and what is left make up the segments.
  ghost predicate Scanned(path: string, start: int, done: seq<string>, i: nat)
    requires -1 <= start <= i <= |path|
  {
    Segments(path) == done + Pieces(Collected(path, start, i), path[i..])
  }

  // One character: a slash, or the end, completes the piece; any other joins it.
  lemma ScanStep(path: string, start: int, done: seq<string>, i: nat)
    requires -1 <= start < i <= |path| || (start == -1 && i == 0)
    requires Scanned(path, start, done, i)
    ensures var done' := done + (if start == -1 then [] else [path[start..i]]);
            if i == |path| then Segments(path) == done'
            else if path[i] == '/' then Scanned(path, -1, done', i + 1)
            else Scanned(path, if start == -1 then i else start, done, i + 1)
  {
    var piece := Collected(path, start, i);
    assert piece != "" <==> start != -1;
    if i < |path| {
      PiecesStep(piece, path, i);
      if path[i] == '/' {
        assert Collected(path, -1, i + 1) == "";
      } else {
        assert Collected(path, if start == -1 then i else start, i + 1) == piece + [path[i]];
      }
    }
  }

  // The scanner: `start` is where the current piece began, `seg` the last one completed.
  method GetSegmentAt(path: string, n: int, includeLeading: bool, includeTrailing: bool)
    returns (segment: string, ok: bool)
    ensures ok <==> 0 <= n < |Segments(path)|
    ensures ok ==>
              segment == (if includeLeading then "/" else "") + Segments(path)[n]
                         + (if includeTrailing then "/" else "")
    ensures !ok ==> segment == ""
  {
    var seg, start := -1, -1;
    ghost var done: seq<string> := [];
    var i := 0;
    assert path[0..] == path;
    while i <= |path|
      invariant 0 <= i <= |path| + 1
      invariant -1 <= start < i && seg + 1 == |done|
      invariant i <= |path| ==> Scanned(path, start, done, i)
      invariant i == |path| + 1 ==> start == -1 && Segments(path) == done
      invariant n >= 0 ==> n > seg
    {
      var end := i == |path| || path[i] == '/';
      ScanStep(path, start, done, i);
      if start == -1 {
        if !end {
          start := i;
        }
      } else if end {
        seg := seg + 1;
        done := done + [path[start..i]];
        if seg == n {
          segment := Decorate(path[start..i], includeLeading, includeTrailing);
          assert Segments(path)[n] == path[start..i];
          return segment, true;
        }
        start := -1;
      }
      i := i + 1;
    }
    return "", false;
  }

  method Decorate(piece: string, includeLeading: bool, includeTrailing: bool) returns (segment: string)
    ensures segment == (if includeLeading then "/" else "") + piece + (if includeTrailing then "/" else "")
  {
    segment := piece;
    if includeLeading {
      segment := "/" + segment;
    }
    if includeTrailing {
      segment := segment + "/";
    }
  }

  // Three laws that determine the segments: a slash separates, a piece without
  // slashes stands for itself, and no segment is empty or has a slash.
  lemma {:induction false} PiecesAtSlash(piece: string, a: string, b: string)
    ensures Pieces(piece, a + "/" + b) == Pieces(piece, a) + Segments(b)
    decreases |a|
  {
    if a == "" {
      assert a + "/" + b == "/" + b && ("/" + b)[1..] == b;
    } else {
      assert (a + "/" + b)[1..] == a[1..] + "/" + b;
      if a[0] == '/' {
        PiecesAtSlash("", a[1..], b);
      } else {
        PiecesAtSlash(piece + [a[0]], a[1..], b);
      }
    }
  }

  lemma SegmentsAtSlash(a: string, b: string)
    ensures Segments(a + "/" + b) == Segments(a) + Segments(b)
  {
    PiecesAtSlash("", a, b);
  }

  lemma {:induction false} PiecesNoSlash(piece: string, s: string)
    requires '/' !in s
    ensures Pieces(piece, s) == if piece + s == "" then [] else [piece + s]
    decreases |s|
  {
    if s == "" {
      assert piece + s == piece;
    } else {
      PiecesNoSlash(piece + [s[0]], s[1..]);
      assert piece + [s[0]] + s[1..] == piece + s;
    }
  }

  lemma SegmentOfPlain(s: string)
    requires '/' !in s && s != ""
    ensures Segments(s) == [s]
  {
    PiecesNoSlash("", s);
    assert "" + s == s;
  }

  lemma {:induction false} PiecesPlain(piece: string, s: string)
    requires '/' !in piece
    ensures forall x :: x in Pieces(piece, s) ==> x != "" && '/' !in x
    decreases |s|
  {
    if s != "" {
      if s[0] == '/' {
        PiecesPlain("", s[1..]);
      } else {
        PiecesPlain(piece + [s[0]], s[1..]);
      }
    }
  }

  // ------------------------------------------------------------ parents

  // strings.LastIndex(s, "/").
  function LastSlash(s: string): (i: int)
    ensures -1 <= i < |s|
    ensures i >= 0 ==> s[i] == '/'
    ensures forall j :: i < j < |s| ==> s[j] != '/'
  {
    if s == "" then -1
    else if s[|s| - 1] == '/' then |s| - 1
    else LastSlash(s[..|s| - 1])
  }

  function ParentLength(key: string): (n: nat)
    requires key != "" && key != "/"
    ensures n < |key|
  {
    LastSlash(key[..|key| - 1]) + 1
  }

  // GetParentPath: the parent path and the child's own key.
  function GetParentPath(key: string): (string, string) {
    if key == "" || key == "/" then (key, key)
    else (key[..ParentLength(key)], key[ParentLength(key)..])
  }

  function Parent(key: string): string {
    GetParentPath(key).0
  }

  function ChildKey(key: string): string {
    GetParentPath(key).1
  }

  // A child's own key: not empty, and no slash but possibly a last one.
  ghost predicate IsChildKey(k: string) {
    k != "" && forall i :: 0 <= i < |k| - 1 ==> k[i] != '/'
  }

  ghost predicate IsDirectory(p: string) {
    p == "" || p[|p| - 1] == '/'
  }

  // Splitting loses nothing, makes the path shorter, and is undone by concatenation.
  lemma ParentSplits(key: string)
    requires key != "" && key != "/"
    ensures Parent(key) + ChildKey(key) == key
    ensures |Parent(key)| < |key| && IsDirectory(Parent(key)) && IsChildKey(ChildKey(key))
  {
    var k := key[..|key| - 1];
    var n := ParentLength(key);
    assert forall j :: n <= j < |k| ==> k[j] == key[j] && key[j] != '/';
  }

  lemma ParentOfChild(dir: string, k: string)
    requires IsDirectory(dir) && IsChildKey(k) && dir + k != "/"
    ensures GetParentPath(dir + k) == (dir, k)
  {
    var key := dir + k;
    var n := ParentLength(key);
    var init := key[..|key| - 1];
    assert forall j :: 0 <= j < |init| ==> init[j] == key[j];
    assert forall j :: |dir| <= j < |init| ==> key[j] == k[j - |dir|] && key[j] != '/';
    if dir != "" {
      assert init[|dir| - 1] == '/';
    }
    assert n == |dir|;
    assert key[..|dir|] == dir && key[|dir|..] == k;
  }

  function Ancestor(key: string, n: nat): string {
    if n == 0 then key else Ancestor(Parent(key), n - 1)
  }

  // Going up strictly shrinks the path until it reaches one of the two fixpoints.
  lemma {:induction false} AncestorsEnd(key: string, n: nat)
    requires n >= |key|
    ensures Ancestor(key, n) == "" || Ancestor(key, n) == "/"
    ensures Parent(key) == key <==> key == "" || key == "/"
    decreases n
  {
    if key == "" || key == "/" {
      if n > 0 {
        if |key| < n {
          AncestorsEnd(key, n - 1);
        } else {
          assert Ancestor(key, 1) == Ancestor(key, 0);
        }
      }
    } else {
      ParentSplits(key);
      AncestorsEnd(Parent(key), n - 1);
    }
  }

  // ------------------------------------------------------------ the platform's paths

  const DEFAULT_PATHS: set<string> :=
    {PATH_ROOT, PATH_CODE, PATH_NONCE, PATH_BALANCE, PATH_FUNC_PROFILE,
     PATH_STORAGE_ROOT, PATH_STORAGE_CONTAINER, PATH_STORAGE_NATIVE}

  predicate IsSysPath(path: string) {
    |path| <= ETH_ACCOUNT_FULL_LENGTH || path[ETH_ACCOUNT_FULL_LENGTH..] in DEFAULT_PATHS
  }

  predicate IsContainerPath(path: string) {
    HasSuffix(path, "/container/")
  }

  predicate IsImmediateChildOfSysPath(path: string) {
    if IsSysPath(path) then true
    else if IsContainerPath(Parent(path)) then false
    else IsSysPath(Parent(path)) || '/' !in Parent(path)
  }

  // Whether `write` records the child in its parent.
  predicate Tracks(parent: string, tx: nat) {
    IsContainerPath(parent) || (!IsSysPath(parent) && tx != SYSTEM)
  }

  // Every path whose membership is checked on a read is one whose parent a write by an
  // ordinary transaction updates; for SYSTEM this is so exactly under container paths.
  lemma CheckedIsTracked(path: string, tx: nat)
    requires !IsImmediateChildOfSysPath(path)
    ensures Tracks(Parent(path), tx) <==> tx != SYSTEM || IsContainerPath(Parent(path))
    ensures IsDirectory(Parent(path)) && Parent(path) != "" && Parent(path) != path
  {
    ParentSplits(path);
    if Parent(path) == "" {
      assert IsSysPath("");
    }
  }

  // ------------------------------------------------------------ under an account

  ghost predicate IsAddress(addr: string) {
    |addr| == ETH_ACCOUNT_LENGTH && '/' !in addr
  }

  // An account's paths: prefix, address, and what is under the account.
  function AccountPath(addr: string, rest: string): string {
    ETH_ACCOUNT_PREFIX + addr + "/" + rest
  }

  lemma AccountTail(addr: string, rest: string)
    requires IsAddress(addr)
    ensures |AccountPath(addr, rest)| == 65 + |rest| && AccountPath(addr, rest)[64..] == "/" + rest
  {
  }

  // The platform keeps these eight of an account's own paths.
  lemma AccountSysPaths(addr: string, rest: string)
    requires IsAddress(addr)
    ensures IsSysPath(AccountPath(addr, rest))
       <==> rest in {"", "code", "nonce", "balance", "profiles/", "storage/", "storage/container/", "storage/native/"}
  {
    AccountTail(addr, rest);
    var tail := "/" + rest;
    assert tail[1..] == rest;
    assert tail == PATH_ROOT <==> rest == "";
    assert PATH_CODE[1..] == "code" && (rest == "code" ==> tail == PATH_CODE);
    assert PATH_NONCE[1..] == "nonce" && (rest == "nonce" ==> tail == PATH_NONCE);
    assert PATH_BALANCE[1..] == "balance" && (rest == "balance" ==> tail == PATH_BALANCE);
    assert PATH_FUNC_PROFILE[1..] == "profiles/" && (rest == "profiles/" ==> tail == PATH_FUNC_PROFILE);
    assert PATH_STORAGE_ROOT[1..] == "storage/" && (rest == "storage/" ==> tail == PATH_STORAGE_ROOT);
    assert PATH_STORAGE_CONTAINER[1..] == "storage/container/";
    assert rest == "storage/container/" ==> tail == PATH_STORAGE_CONTAINER;
    assert PATH_STORAGE_NATIVE[1..] == "storage/native/";
    assert rest == "storage/native/" ==> tail == PATH_STORAGE_NATIVE;
  }

  // The container directory of an account keeps a record of its children, for every
  // writer, and a read asks for it.
  lemma ContainerOfAccount(addr: string, key: string, tx: nat)
    requires IsAddress(addr) && IsChildKey(key)
    ensures var dir := AccountPath(addr, "storage/container/");
            && IsContainerPath(dir) && IsSysPath(dir) && HasSuffix(dir, "/") && Tracks(dir, tx)
            && GetParentPath(dir + key) == (dir, key) && Parent(dir + key) == dir && ChildKey(dir + key) == key
            && !IsImmediateChildOfSysPath(dir + key)
  {
    var dir := AccountPath(addr, "storage/container/");
    AccountTail(addr, "storage/container/");
    assert dir[64..] == "/storage/container/" && |dir| == 83;
    assert dir[72..] == dir[64..][8..] == "/container/";
    assert dir[82..] == dir[64..][18..] == "/";
    AccountSysPaths(addr, "storage/container/");
    ParentOfChild(dir, key);
    var rest := "storage/container/" + key;
    assert dir + key == AccountPath(addr, rest);
    assert |rest| > 18 && rest[..18] == "storage/container/";
    AccountSysPaths(addr, rest);
    assert rest !in {"", "code", "nonce", "balance", "profiles/", "storage/", "storage/container/", "storage/native/"};
  }

  // Children of the account's other directories keep no record and are always looked for.
  lemma NativeOfAccount(addr: string, key: string)
    requires IsAddress(addr) && IsChildKey(key)
    ensures var dir := AccountPath(addr, "storage/native/");
            !IsContainerPath(dir) && IsImmediateChildOfSysPath(dir + key) && (forall tx :: !Tracks(dir, tx))
  {
    var dir := AccountPath(addr, "storage/native/");
    AccountTail(addr, "storage/native/");
    assert dir[64..] == "/storage/native/" && |dir| == 80;
    assert dir[69..] == dir[64..][5..] == "age/native/";
    assert dir[69..][0] == 'a';
    AccountSysPaths(addr, "storage/native/");
    ParentOfChild(dir, key);
  }

  // ------------------------------------------------------------ routing to Ethereum

  predicate ReservedSuffix(path: string) {
    HasSuffix(path, PATH_NONCE) || HasSuffix(path, PATH_BALANCE) || HasSuffix(path, PATH_CODE)
  }

  // GetSegmentAt(path, 5, false, true) == "native/".
  method ShouldPersistToEth(path: string) returns (r: bool)
    ensures r == PersistsToEth(path)
  {
    if |path| <= ETH_ACCOUNT_FULL_LENGTH + 1 {
      return false;
    }
    if HasSuffix(path, PATH_NONCE) || HasSuffix(path, PATH_BALANCE) || HasSuffix(path, PATH_CODE) {
      return true;
    }
    if HasSuffix(path, "/") {
      return false;
    }
    var sub, ok := GetSegmentAt(path, 5, false, true);
    if ok {
      NativeSegment(Segments(path)[5]);
    }
    return ok && sub == "native/";
  }

  lemma NativeSegment(s: string)
    ensures "" + s + "/" == "native/" <==> s == "native"
  {
    assert "native/" == "native" + "/";
    assert ("" + s + "/")[..|s|] == s && |"" + s + "/"| == |s| + 1;
    if "" + s + "/" == "native/" {
      assert s == "native/"[..|s|];
    }
  }

  predicate PersistsToEth(path: string) {
    && |path| > ETH_ACCOUNT_FULL_LENGTH + 1
    && (ReservedSuffix(path) || (!HasSuffix(path, "/") && |Segments(path)| > 5 && Segments(path)[5] == "native"))
  }

  lemma FourSegments(a: string, b: string, c: string, d: string, rest: string)
    requires a != "" && b != "" && c != "" && d != ""
    requires '/' !in a && '/' !in b && '/' !in c && '/' !in d
    ensures Segments(a + "/" + ("" + "/" + (b + "/" + (c + "/" + (d + "/" + rest))))) == [a, b, c, d] + Segments(rest)
  {
    var r1 := d + "/" + rest;
    var r2 := c + "/" + r1;
    var r3 := b + "/" + r2;
    var r4 := "" + "/" + r3;
    SegmentsAtSlash(d, rest);
    SegmentsAtSlash(c, r1);
    SegmentsAtSlash(b, r2);
    SegmentsAtSlash("", r3);
    SegmentsAtSlash(a, r4);
    SegmentOfPlain(a);
    SegmentOfPlain(b);
    SegmentOfPlain(c);
    SegmentOfPlain(d);
  }

  lemma AccountSegments(addr: string, rest: string)
    requires IsAddress(addr)
    ensures Segments(AccountPath(addr, rest)) == ["blcc:", "eth1.0", "account", addr] + Segments(rest)
  {
    FourSegments("blcc:", "eth1.0", "account", addr, rest);
    AccountShape("blcc:", "eth1.0", "account", addr, rest);
  }

  lemma AccountShape(a: string, b: string, c: string, d: string, rest: string)
    requires a == "blcc:" && b == "eth1.0" && c == "account"
    ensures AccountPath(d, rest) == a + "/" + ("" + "/" + (b + "/" + (c + "/" + (d + "/" + rest))))
  {
    assert ETH_ACCOUNT_PREFIX == a + "/" + "/" + b + "/" + c + "/";
  }

  // Under an account, exactly the reserved suffixes and the non-directory entries whose
  // second segment is "native" are routed to Ethereum storage.
  lemma AccountRouting(addr: string, rest: string)
    requires IsAddress(addr)
    ensures PersistsToEth(AccountPath(addr, rest)) <==>
              rest != "" && (ReservedSuffix(AccountPath(addr, rest))
                             || (rest[|rest| - 1] != '/' && |Segments(rest)| > 1 && Segments(rest)[1] == "native"))
  {
    AccountSegments(addr, rest);
    var path := AccountPath(addr, rest);
    assert |path| == ETH_ACCOUNT_FULL_LENGTH + 1 + |rest|;
    if rest != "" {
      assert path[|path| - 1] == rest[|rest| - 1];
      assert path[|path| - 1..] == [rest[|rest| - 1]];
    }
  }

  // The three reserved entries of an account are routed, whatever the address.
  lemma ReservedRouted(addr: string)
    requires IsAddress(addr)
    ensures PersistsToEth(AccountPath(addr, "nonce")) && PersistsToEth(AccountPath(addr, "balance"))
    ensures PersistsToEth(AccountPath(addr, "code")) && !PersistsToEth(AccountPath(addr, ""))
  {
    AccountTail(addr, "nonce");
    AccountTail(addr, "balance");
    AccountTail(addr, "code");
    AccountRouting(addr, "");
    assert "/" + "nonce" == PATH_NONCE && "/" + "balance" == PATH_BALANCE && "/" + "code" == PATH_CODE;
  }

  // Native slots are routed, container entries that are not reserved are not.
  lemma StorageRouting(addr: string, key: string)
    requires IsAddress(addr) && key != "" && '/' !in key
    ensures PersistsToEth(AccountPath(addr, "storage/native/" + key))
    ensures PersistsToEth(AccountPath(addr, "storage/container/" + key))
       <==> ReservedSuffix(AccountPath(addr, "storage/container/" + key))
  {
    UnderStorage("native", key);
    UnderStorage("container", key);
    assert "storage/" + "native" + "/" == "storage/native/";
    assert "storage/" + "container" + "/" == "storage/container/";
    AccountRouting(addr, "storage/native/" + key);
    AccountRouting(addr, "storage/container/" + key);
    assert "container" != "native" by {
      assert "container"[0] != "native"[0];
    }
  }

  lemma UnderStorage(dir: string, key: string)
    requires dir != "" && '/' !in dir && key != "" && '/' !in key
    ensures Segments("storage/" + dir + "/" + key) == ["storage", dir, key]
  {
    assert "storage/" + dir + "/" + key == "storage" + "/" + (dir + "/" + key);
    SegmentsAtSlash("storage", dir + "/" + key);
    SegmentsAtSlash(dir, key);
    SegmentOfPlain("storage");
    SegmentOfPlain(dir);
    SegmentOfPlain(key);
  }
}
