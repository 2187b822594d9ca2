/**
 * Spellings of one key file (application/defaultKeyPassphrases.ts:8-44): `~/x`, the absolute path,
 * and Windows case or slash variants. Case folding covers ASCII letters.
 */
module KeyPaths {
  import opened Prelude

  predicate IsSlash(c: char) { c == '/' || c == '\\' }

  predicate IsDrivePath(p: string) {
    |p| >= 3 && ('a' <= p[0] <= 'z' || 'A' <= p[0] <= 'Z') && p[1] == ':' && IsSlash(p[2])
  }

  predicate LooksLikeWindows(p: string) {
    IsDrivePath(p) || (|p| >= 2 && IsSlash(p[0]) && IsSlash(p[1]))
  }

  function Forward(c: char): char { if c == '\\' then '/' else c }

  function Lower(c: char): char {
    if 'A' <= c <= 'Z' then (c as int + 32) as char else c
  }

  function ForwardSlashes(p: string): (r: string)
    ensures |r| == |p| && forall i :: 0 <= i < |p| ==> r[i] == Forward(p[i])
  {
    seq(|p|, i requires 0 <= i < |p| => Forward(p[i]))
  }

  function LowerCase(p: string): (r: string)
    ensures |r| == |p| && forall i :: 0 <= i < |p| ==> r[i] == Lower(p[i])
  {
    seq(|p|, i requires 0 <= i < |p| => Lower(p[i]))
  }

  /** The key under which a spelling is compared; only Windows paths are folded. */
  function PathKey(p: string): (r: string)
    ensures |r| == |p|
  {
    if LooksLikeWindows(p) then LowerCase(ForwardSlashes(p)) else p
  }

  function StripOneSlash(p: string): string {
    if p != "" && p[|p| - 1] == '/' then p[..|p| - 1] else p
  }

  function StripSlashes(p: string): (r: string)
    ensures r <= p
    ensures r != "" ==> !IsSlash(r[|r| - 1])
    ensures forall i :: |r| <= i < |p| ==> IsSlash(p[i])
  {
    if p != "" && IsSlash(p[|p| - 1]) then StripSlashes(p[..|p| - 1]) else p
  }

  function NormalizedHome(home: string): string { StripOneSlash(ForwardSlashes(home)) }

  /** The spelling of `~/suffix` with the separator that the home directory itself uses. */
  function NativeSpelling(home: string, suffix: string): string {
    var separator := if '\\' in home then '\\' else '/';
    StripSlashes(home) + [separator]
      + seq(|suffix|, i requires 0 <= i < |suffix| => if suffix[i] == '/' then separator else suffix[i])
  }

  /** A path that is rewritten with forward slashes: on a drive, or beginning with two backslashes. */
  predicate IsNativeWindows(p: string) { IsDrivePath(p) || "\\\\" <= p }

  function Normalized(p: string): string { if IsNativeWindows(p) then ForwardSlashes(p) else p }

  /** Every spelling looked up for `p`; `home` is None when the bridge is absent or fails. */
  function Aliases(p: string, home: Option<string>): (r: set<string>)
    ensures p in r
  {
    var normalized := Normalized(p);
    var own := {p, normalized};
    if home.None? || home.value == "" then own
    else
      var homeDir := NormalizedHome(home.value);
      if PathKey(homeDir) + "/" <= PathKey(normalized) then
        own + {"~/" + normalized[|homeDir| + 1..]}
      else if "~/" <= normalized then
        own + {homeDir + "/" + normalized[2..], NativeSpelling(home.value, normalized[2..])}
      else own
  }

  function AliasKeys(p: string, home: Option<string>): (r: set<string>)
    ensures PathKey(p) in r
  {
    set a | a in Aliases(p, home) :: PathKey(a)
  }

  /** What a lookup of `p` finds: `q` is remembered under one of the spellings of `p`. */
  predicate Finds(p: string, q: string, home: Option<string>) {
    PathKey(q) in AliasKeys(p, home)
  }

  /** An absolute POSIX home directory, well formed or not. */
  predicate IsPosixHome(home: string) {
    "/" <= home && !LooksLikeWindows(home)
  }

  /** The branch guard that keeps tilde and absolute forms inverse: one spelling per form. */
  predicate IsCleanHome(home: string) {
    '\\' !in home && !(|home| >= 2 && home[|home| - 2..] == "//")
  }

  ghost predicate Symmetric(home: string) {
    forall p, q | !LooksLikeWindows(p) && !LooksLikeWindows(q) ::
      Finds(p, q, Some(home)) <==> Finds(q, p, Some(home))
  }

  predicate EndsInTwoSlashes(p: string) { |p| >= 2 && IsSlash(p[|p| - 1]) && IsSlash(p[|p| - 2]) }

  lemma OneSlashStripped(home: string)
    requires home != "" && !EndsInTwoSlashes(home)
    ensures ForwardSlashes(StripSlashes(home)) == NormalizedHome(home)
  {
    var s := StripSlashes(home);
    if IsSlash(home[|home| - 1]) {
      assert s == home[..|home| - 1];
    }
  }

  lemma SameForward(s: string)
    ensures ForwardSlashes(s) == s <==> '\\' !in s
  {
    if '\\' in s {
      var i :| 0 <= i < |s| && s[i] == '\\';
      assert ForwardSlashes(s)[i] != s[i];
    }
  }

  lemma CleanHomeForms(home: string)
    requires IsPosixHome(home) && IsCleanHome(home)
    ensures StripSlashes(home) == NormalizedHome(home)
    ensures PathKey(NormalizedHome(home)) == NormalizedHome(home)
    ensures "/" <= NormalizedHome(home) + "/"
  {
    OneSlashStripped(home);
    SameForward(StripSlashes(home));
    assert !LooksLikeWindows(StripSlashes(home));
  }

  lemma CleanNativeSpelling(home: string, suffix: string)
    requires IsPosixHome(home) && IsCleanHome(home)
    ensures NativeSpelling(home, suffix) == NormalizedHome(home) + "/" + suffix
  {
  }

  /** A clean POSIX home gives each path at most one other spelling. */
  lemma CleanAliases(p: string, home: string)
    requires IsPosixHome(home) && IsCleanHome(home) && !LooksLikeWindows(p)
    ensures var n := NormalizedHome(home) + "/";
            Aliases(p, Some(home)) ==
              if n <= p then {p, "~/" + p[|n|..]}
              else if "~/" <= p then {p, n + p[2..]}
              else {p}
  {
    CleanHomeForms(home);
    if "~/" <= p { CleanNativeSpelling(home, p[2..]); }
    assert !("\\\\" <= p);
  }

  lemma SpelledOtherwise(p: string, q: string, a: string, n: string)
    requires "/" <= n && q != p && !LooksLikeWindows(p) && !LooksLikeWindows(q) && PathKey(a) == q
    requires a in if n <= p then {p, "~/" + p[|n|..]} else if "~/" <= p then {p, n + p[2..]} else {p}
    ensures if n <= p then q == "~/" + p[|n|..] else n <= q && p == "~/" + q[|n|..]
  {
  }

  lemma OtherSpelling(p: string, q: string, home: string)
    requires IsPosixHome(home) && IsCleanHome(home)
    requires !LooksLikeWindows(p) && !LooksLikeWindows(q)
    requires Finds(p, q, Some(home)) && q != p
    ensures var n := NormalizedHome(home) + "/";
            if n <= p then q == "~/" + p[|n|..] else n <= q && p == "~/" + q[|n|..]
  {
    var a :| a in Aliases(p, Some(home)) && PathKey(a) == q;
    CleanAliases(p, home);
    CleanHomeForms(home);
    SpelledOtherwise(p, q, a, NormalizedHome(home) + "/");
  }

  lemma CutAtHome(p: string, q: string, n: string)
    requires "/" <= n <= p && q == "~/" + p[|n|..]
    ensures !(n <= q) && "~/" <= q && n + q[2..] == p
  {
    assert q[0] == '~' && n[0] == '/';
    assert q[2..] == p[|n|..];
  }

  lemma AbsoluteAndTildeAgree(p: string, q: string, home: string)
    requires IsPosixHome(home) && IsCleanHome(home)
    requires !LooksLikeWindows(p) && !LooksLikeWindows(q)
    requires var n := NormalizedHome(home) + "/"; n <= p && q == "~/" + p[|n|..]
    ensures Aliases(p, Some(home)) == Aliases(q, Some(home)) == {p, q}
  {
    var n := NormalizedHome(home) + "/";
    CleanHomeForms(home);
    CutAtHome(p, q, n);
    CleanAliases(p, home);
    CleanAliases(q, home);
  }

  /** Spellings that find each other are looked up under the very same keys. */
  lemma AliasClassesAgree(p: string, q: string, home: string)
    requires IsPosixHome(home) && IsCleanHome(home)
    requires !LooksLikeWindows(p) && !LooksLikeWindows(q)
    requires Finds(p, q, Some(home))
    ensures AliasKeys(p, Some(home)) == AliasKeys(q, Some(home))
  {
    if q != p {
      OtherSpelling(p, q, home);
      if NormalizedHome(home) + "/" <= p {
        AbsoluteAndTildeAgree(p, q, home);
      } else {
        AbsoluteAndTildeAgree(q, p, home);
      }
    }
  }

  lemma UncleanHomeForms(home: string)
    requires IsPosixHome(home) && !IsCleanHome(home)
    ensures var n, s := NormalizedHome(home), StripSlashes(home);
            && |s| >= 2 && s[0] == '/' && s[1] == home[1] && !IsSlash(s[1])
            && |n| >= |s| && n[0] == '/' && PathKey(n) == n
            && ('\\' !in home ==> |n| > |s|)
  {
  }

  /** The spellings of a path in the home directory. */
  lemma TildeAliases(s: string, home: string)
    requires home != "" && !("~" <= home)
    ensures Aliases("~/" + s, Some(home)) == {"~/" + s, NormalizedHome(home) + "/" + s, NativeSpelling(home, s)}
  {
    var p, n := "~/" + s, NormalizedHome(home);
    assert p[0] == '~' && Normalized(p) == p && PathKey(p) == p && p[2..] == s;
    assert (PathKey(n) + "/")[0] != '~';
  }

  lemma NotUnder(n: string, length: nat, separator: char, q: string)
    requires |q| == length + 2 && q[length] == separator && q[length + 1] == 'x'
    requires |n| >= length && (|n| == length ==> separator != '/')
    ensures !(n + "/" <= q)
  {
    var m := n + "/";
    assert m[|n|] == '/';
    assert |n| < |q| ==> q[|n|] != '/';
  }

  /** A path outside the home that is not native to Windows has no other spelling. */
  lemma NoOtherSpelling(q: string, home: string)
    requires !LooksLikeWindows(q) && home != "" && q != "" && q[0] != '~'
    requires !(PathKey(NormalizedHome(home)) + "/" <= q)
    ensures Aliases(q, Some(home)) == {q}
  {
    assert Normalized(q) == q && PathKey(q) == q;
  }

  lemma UncleanNotUnderHome(home: string)
    requires IsPosixHome(home) && !IsCleanHome(home)
    ensures var q := NativeSpelling(home, "x");
            q[0] == '/' && !LooksLikeWindows(q) && Aliases(q, Some(home)) == {q}
  {
    UncleanHomeForms(home);
    var n, s, q := NormalizedHome(home), StripSlashes(home), NativeSpelling(home, "x");
    var separator := if '\\' in home then '\\' else '/';
    assert q[0] == s[0] && q[1] == s[1];
    NotUnder(n, |s|, separator, q);
    NoOtherSpelling(q, home);
  }

  /** A home that mixes separators, or ends in two slashes, spells `~/x` in a way that never finds it back. */
  lemma UncleanHomeLosesTilde(home: string)
    requires IsPosixHome(home) && !IsCleanHome(home)
    ensures var q := NativeSpelling(home, "x");
            !LooksLikeWindows(q) && Finds("~/x", q, Some(home)) && !Finds(q, "~/x", Some(home))
  {
    UncleanNotUnderHome(home);
    var q, tilde := NativeSpelling(home, "x"), "~/x";
    assert "~/" + "x" == tilde && tilde[0] == '~' && PathKey(tilde) == tilde;
    TildeAliases("x", home);
    assert q in Aliases(tilde, Some(home));
  }

  /**
   * For an absolute POSIX home directory the alias relation is symmetric exactly when the home is clean.
   */
  lemma AliasesSymmetricIffCleanHome(home: string)
    requires IsPosixHome(home)
    ensures Symmetric(home) <==> IsCleanHome(home)
  {
    if IsCleanHome(home) {
      forall p, q | !LooksLikeWindows(p) && !LooksLikeWindows(q)
        ensures Finds(p, q, Some(home)) <==> Finds(q, p, Some(home))
      {
        if Finds(p, q, Some(home)) { AliasClassesAgree(p, q, home); }
        if Finds(q, p, Some(home)) { AliasClassesAgree(q, p, home); }
      }
    } else {
      UncleanHomeLosesTilde(home);
    }
  }

  /** On POSIX paths `Finds` is transitive as well, so it is an equivalence. */
  lemma AliasesTransitive(p: string, q: string, r: string, home: string)
    requires IsPosixHome(home) && IsCleanHome(home)
    requires !LooksLikeWindows(p) && !LooksLikeWindows(q) && !LooksLikeWindows(r)
    requires Finds(p, q, Some(home)) && Finds(q, r, Some(home))
    ensures Finds(p, r, Some(home))
  {
    AliasClassesAgree(p, q, home);
  }

  /** The absolute path that a spelling stands for. */
  function Expanded(p: string, home: string): string {
    if "~/" <= p then (if home != "" && home[|home| - 1] in "/\\" then home else home + "/") + p[2..] else p
  }

  /** One of two different spellings of a path is the absolute one, and the other its tilde form. */
  lemma SamePathForms(p: string, q: string, n: string)
    requires "/" <= n && p != q
    ensures (if "~/" <= p then n + p[2..] else p) == (if "~/" <= q then n + q[2..] else q) <==>
              (n <= p && q == "~/" + p[|n|..]) || (n <= q && p == "~/" + q[|n|..])
  {
    if "~/" <= p { assert p == "~/" + p[2..] && (n + p[2..])[|n|..] == p[2..]; }
    if "~/" <= q { assert q == "~/" + q[2..] && (n + q[2..])[|n|..] == q[2..]; }
    if n <= p { assert p == n + p[|n|..] && p[0] == '/' && ("~/" + p[|n|..])[2..] == p[|n|..]; }
    if n <= q { assert q == n + q[|n|..] && q[0] == '/' && ("~/" + q[|n|..])[2..] == q[|n|..]; }
  }

  lemma FindsForms(p: string, q: string, home: string)
    requires IsPosixHome(home) && IsCleanHome(home) && p != q
    requires !LooksLikeWindows(p) && !LooksLikeWindows(q)
    ensures var n := NormalizedHome(home) + "/";
            Finds(p, q, Some(home)) <==> (n <= p && q == "~/" + p[|n|..]) || (n <= q && p == "~/" + q[|n|..])
  {
    var n := NormalizedHome(home) + "/";
    if Finds(p, q, Some(home)) {
      OtherSpelling(p, q, home);
    } else if n <= p && q == "~/" + p[|n|..] {
      AbsoluteAndTildeAgree(p, q, home);
    } else if n <= q && p == "~/" + q[|n|..] {
      AbsoluteAndTildeAgree(q, p, home);
    }
  }

  lemma HomeWithSlash(home: string)
    requires IsPosixHome(home) && IsCleanHome(home)
    ensures NormalizedHome(home) + "/" == if home[|home| - 1] in "/\\" then home else home + "/"
    ensures "/" <= NormalizedHome(home) + "/"
  {
    CleanHomeForms(home);
  }

  /** Two spellings find each other exactly when they stand for the same path. */
  lemma FindsIffSamePath(p: string, q: string, home: string)
    requires IsPosixHome(home) && IsCleanHome(home)
    requires !LooksLikeWindows(p) && !LooksLikeWindows(q)
    ensures Finds(p, q, Some(home)) <==> Expanded(p, home) == Expanded(q, home)
  {
    HomeWithSlash(home);
    if p != q {
      FindsForms(p, q, home);
      SamePathForms(p, q, NormalizedHome(home) + "/");
    }
  }

  // ---- Windows ----

  function Fold(p: string): (r: string)
    ensures |r| == |p| && forall i :: 0 <= i < |p| ==> r[i] == Lower(Forward(p[i]))
  {
    LowerCase(ForwardSlashes(p))
  }

  /** Writing a path with forward slashes keeps its key. */
  lemma NormalizedKey(p: string)
    ensures PathKey(Normalized(p)) == PathKey(p)
  {
    if IsNativeWindows(p) {
      assert Fold(ForwardSlashes(p)) == Fold(p);
    }
  }

  lemma FoldedAlike(a: string, p: string)
    requires LooksLikeWindows(p) && |a| == |p| && Fold(a) == Fold(p)
    ensures LooksLikeWindows(a) && PathKey(a) == PathKey(p)
  {
    assert forall i :: 0 <= i < |p| ==> Fold(a)[i] == Lower(Forward(a[i])) == Lower(Forward(p[i]));
    if IsDrivePath(p) {
      assert Lower(Forward(a[0])) == Lower(Forward(p[0])) && Lower(Forward(a[1])) == ':' && Lower(Forward(a[2])) == '/';
    } else {
      assert Lower(Forward(a[0])) == '/' && Lower(Forward(a[1])) == '/';
    }
  }

  /** What comes back from `~/rest` folds like the path it was cut from. */
  lemma CutAndPaste(p: string, q: string, n: string)
    requires LooksLikeWindows(p) && |q| == |p| && Fold(q) == Fold(p)
    requires PathKey(n) + "/" <= Fold(p)
    ensures |n| < |q| && PathKey(n + "/" + q[|n| + 1..]) == PathKey(p)
  {
    var key, back := PathKey(n) + "/", n + "/" + q[|n| + 1..];
    assert key[|n|] == '/';
    forall i | 0 <= i < |p| ensures Lower(Forward(back[i])) == Lower(Forward(p[i])) {
      if i < |n| {
        assert key[i] == PathKey(n)[i] == Fold(p)[i];
      } else if i > |n| {
        assert back[i] == q[i] && Fold(q)[i] == Fold(p)[i];
      }
    }
    assert Fold(back) == Fold(p);
    FoldedAlike(back, p);
  }

  /** Every spelling of a Windows path finds it: drive and network paths, any case, any separators, any home. */
  lemma WindowsAliasesFindBack(p: string, a: string, home: string)
    requires LooksLikeWindows(p) && !("~" <= home) && a in Aliases(p, Some(home))
    ensures Finds(a, p, Some(home))
  {
    NormalizedKey(p);
    if a != p && a != Normalized(p) {
      var n, full := NormalizedHome(home), Normalized(p);
      assert Fold(full) == Fold(p) && PathKey(full) == Fold(p);
      assert a == "~/" + full[|n| + 1..];
      CutAndPaste(p, full, n);
      TildeAliases(full[|n| + 1..], home);
    }
  }

  /** When an absolute spelling finds the tilde spelling. */
  lemma FindsTilde(a: string, s: string, home: string)
    requires home != "" && a != "" && a[0] != '~'
    ensures var n, full := NormalizedHome(home), Normalized(a);
            Finds(a, "~/" + s, Some(home)) <==>
              PathKey(n) + "/" <= PathKey(full) && |n| < |full| && full[|n| + 1..] == s
  {
    var n, full, p := NormalizedHome(home), Normalized(a), "~/" + s;
    assert p[0] == '~' && PathKey(p) == p;
    assert PathKey(a)[0] != '~' && PathKey(full)[0] != '~' && full[0] != '~';
    if PathKey(n) + "/" <= PathKey(full) {
      var tilde := "~/" + full[|n| + 1..];
      assert tilde[0] == '~' && PathKey(tilde) == tilde;
      assert tilde in Aliases(a, Some(home));
      assert tilde[2..] == full[|n| + 1..] && p[2..] == s;
    }
  }

  /** Equal characters, or two slashes, or the two cases of one letter. */
  predicate SameChar(a: char, b: char) {
    || a == b || (a in "/\\" && b in "/\\")
    || ('A' <= a <= 'Z' && b as int == a as int + 32) || ('A' <= b <= 'Z' && a as int == b as int + 32)
  }

  /** On Windows the two paths are one. */
  predicate SameFile(p: string, q: string) {
    |p| == |q| && forall i :: 0 <= i < |p| ==> SameChar(p[i], q[i])
  }

  lemma SameFold(p: string, q: string)
    ensures SameFile(p, q) <==> Fold(p) == Fold(q)
  {
    if Fold(p) == Fold(q) {
      forall i | 0 <= i < |p| ensures SameChar(p[i], q[i]) {
        assert Fold(p)[i] == Fold(q)[i];
      }
    }
  }

  /**
   * Different paths have one key exactly when both begin like a Windows path, on a drive or on the network, and
   * agree but for case and separators.
   */
  lemma SameKeyIff(p: string, q: string)
    requires p != q
    ensures PathKey(p) == PathKey(q) <==>
              && SameFile(p, q)
              && (|| (|p| >= 2 && p[0] in "/\\" && p[1] in "/\\")
                  || (|p| >= 3 && ('a' <= p[0] <= 'z' || 'A' <= p[0] <= 'Z') && p[1] == ':' && p[2] in "/\\"))
  {
    SameFold(p, q);
    if LooksLikeWindows(p) {
      assert Fold(Fold(p)) == Fold(p);
      if Fold(p) == Fold(q) { FoldedAlike(q, p); }
      if Fold(p) == q { FoldedAlike(q, p); }
    } else if LooksLikeWindows(q) {
      assert Fold(Fold(q)) == Fold(q);
      if Fold(p) == Fold(q) { FoldedAlike(p, q); }
      if Fold(q) == p { FoldedAlike(p, q); }
    }
  }

  /** Two Windows paths find each other exactly when they are one file, whatever the home. */
  lemma WindowsFindsIff(p: string, q: string, home: Option<string>)
    requires LooksLikeWindows(p) && LooksLikeWindows(q)
    ensures Finds(p, q, home) <==> SameFile(p, q)
  {
    NormalizedKey(p);
    SameFold(p, q);
    assert Normalized(p)[0] != '~' && PathKey(q)[0] != '~';
    forall a | a in Aliases(p, home) ensures PathKey(a) == PathKey(p) || PathKey(a)[0] == '~' {
      if a != p && a != Normalized(p) {
        assert a[0] == '~' && PathKey(a) == a;
      }
    }
  }

  /** Without a home directory a path finds just its own key. */
  lemma WithoutHome(p: string, q: string, home: Option<string>)
    requires home.GetOr("") == ""
    ensures Finds(p, q, home) <==> PathKey(p) == PathKey(q)
  {
    NormalizedKey(p);
  }

  /** The root of a drive with a capital letter; without its slash it no longer looks like a Windows path. */
  predicate IsCapitalRoot(p: string) { IsDrivePath(p) && |p| == 3 && 'A' <= p[0] <= 'Z' }

  lemma KeyUnder(n: string, rest: string)
    requires LooksLikeWindows(n + "/" + rest)
    ensures PathKey(n + "/" + rest) == Fold(n) + "/" + Fold(rest)
    ensures PathKey(n) + "/" <= PathKey(n + "/" + rest) <==> PathKey(n) == Fold(n)
  {
    var key := PathKey(n + "/" + rest);
    assert key == Fold(n) + "/" + Fold(rest);
    assert key[..|n|] == Fold(n);
    if PathKey(n) + "/" <= key { assert (PathKey(n) + "/")[..|n|] == PathKey(n); }
    if PathKey(n) == Fold(n) { assert key[..|n| + 1] == PathKey(n) + "/"; }
  }

  /** What a Windows home looks like once it is normalized. */
  lemma WindowsHome(home: string, rest: string)
    requires IsNativeWindows(home) && !EndsInTwoSlashes(home)
    ensures var n := NormalizedHome(home);
            && LooksLikeWindows(n + "/" + rest) && (IsDrivePath(n + "/" + rest) <==> IsDrivePath(home))
            && (PathKey(n) == Fold(n) <==> !IsCapitalRoot(home))
            && ForwardSlashes(n) == n && n != "" && n[0] != '\\'
  {
    var n := NormalizedHome(home);
    if IsDrivePath(home) {
      assert |n| >= 2 && n[0] == home[0] && n[1] == ':';
      if |n| == 2 {
        assert |home| == 3;
        if IsCapitalRoot(home) { assert Fold(n)[0] != n[0]; } else { assert Fold(n) == n; }
      }
    } else {
      assert |home| >= 3 && n[0] == '/' && n[1] == '/';
    }
  }

  /** A form under the normalized home finds the tilde form of what follows, unless the home is a capital root. */
  lemma UnderHomeFinds(a: string, s: string, rest: string, home: string)
    requires IsNativeWindows(home) && !EndsInTwoSlashes(home)
    requires Normalized(a) == NormalizedHome(home) + "/" + rest && a != "" && a[0] != '~'
    ensures Finds(a, "~/" + s, Some(home)) <==> rest == s && !IsCapitalRoot(home)
  {
    var n := NormalizedHome(home);
    WindowsHome(home, rest);
    KeyUnder(n, rest);
    FindsTilde(a, s, home);
    assert (n + "/" + rest)[|n| + 1..] == rest;
  }

  /** The form under the normalized home finds `~/s` back, but for a capital root or a backslash on a drive. */
  lemma ForwardFormFinds(s: string, home: string)
    requires IsNativeWindows(home) && !EndsInTwoSlashes(home)
    ensures Finds(NormalizedHome(home) + "/" + s, "~/" + s, Some(home)) <==>
              !IsDrivePath(home) || ('\\' !in s && !IsCapitalRoot(home))
  {
    var n := NormalizedHome(home);
    var a := n + "/" + s;
    WindowsHome(home, s);
    SameForward(s);
    if IsDrivePath(home) {
      assert Normalized(a) == n + "/" + ForwardSlashes(s);
      UnderHomeFinds(a, s, ForwardSlashes(s), home);
    } else {
      UnderHomeFinds(a, s, s, home);
    }
  }

  lemma NativeForm(s: string, home: string)
    requires IsNativeWindows(home) && !EndsInTwoSlashes(home)
    ensures var a := NativeSpelling(home, s);
            a != "" && a[0] != '~' && Normalized(a) == NormalizedHome(home) + "/" + ForwardSlashes(s)
  {
    var a, stripped := NativeSpelling(home, s), StripSlashes(home);
    OneSlashStripped(home);
    assert |stripped| >= |home| - 1 && stripped <= home;
    assert IsNativeWindows(a) by { assert |stripped| >= 2 && a[0] == home[0] && a[1] == home[1]; }
    assert ForwardSlashes(a) == ForwardSlashes(stripped) + "/" + ForwardSlashes(s);
  }

  /** The form in the home's own spelling finds `~/s` back, but for a backslash or a capital root. */
  lemma NativeFormFinds(s: string, home: string)
    requires IsNativeWindows(home) && !EndsInTwoSlashes(home)
    ensures Finds(NativeSpelling(home, s), "~/" + s, Some(home)) <==> '\\' !in s && !IsCapitalRoot(home)
  {
    var n, a := NormalizedHome(home), NativeSpelling(home, s);
    OneSlashStripped(home);
    WindowsHome(home, s);
    SameForward(s);
    NativeForm(s, home);
    UnderHomeFinds(a, s, ForwardSlashes(s), home);
  }

  /** With two closing slashes the home's own spelling is too short to be found under the normalized home. */
  lemma DoubledSlashLosesTilde(s: string, home: string)
    requires LooksLikeWindows(home) && EndsInTwoSlashes(home)
    ensures !Finds(NativeSpelling(home, s), "~/" + s, Some(home))
  {
    var n, a := NormalizedHome(home), NativeSpelling(home, s);
    assert |StripSlashes(home)| <= |home| - 2;
    assert |Normalized(a)| == |a| < |n| + 1 + |s|;
    if StripSlashes(home) != "" { assert a[0] == home[0]; }
    FindsTilde(a, s, home);
  }

  lemma AllOfThree(f: string -> bool, all: set<string>, x: string, y: string, z: string)
    requires all == {x, y, z}
    ensures (forall a :: a in all ==> f(a)) <==> f(x) && f(y) && f(z)
  {
  }

  lemma TildeAliasesFind(s: string, home: string)
    requires home != "" && !("~" <= home)
    ensures (forall a :: a in Aliases("~/" + s, Some(home)) ==> Finds(a, "~/" + s, Some(home))) <==>
              && Finds(NormalizedHome(home) + "/" + s, "~/" + s, Some(home))
              && Finds(NativeSpelling(home, s), "~/" + s, Some(home))
  {
    var p := "~/" + s;
    TildeAliases(s, home);
    assert Finds(p, p, Some(home));
    AllOfThree((a: string) => Finds(a, p, Some(home)), Aliases(p, Some(home)), p, NormalizedHome(home) + "/" + s,
               NativeSpelling(home, s));
  }

  /**
   * Under a Windows home every spelling of `~/s` finds it back exactly when `s` has no backslash and the home
   * neither ends in two slashes nor is the root of a drive with a capital letter.
   */
  lemma TildeFoundBackIff(s: string, home: string)
    requires IsNativeWindows(home)
    ensures (forall a :: a in Aliases("~/" + s, Some(home)) ==> Finds(a, "~/" + s, Some(home))) <==>
              '\\' !in s && !EndsInTwoSlashes(home) && !IsCapitalRoot(home)
  {
    TildeAliasesFind(s, home);
    if EndsInTwoSlashes(home) {
      DoubledSlashLosesTilde(s, home);
    } else {
      ForwardFormFinds(s, home);
      NativeFormFinds(s, home);
    }
  }

  function Separated(s: string, separator: char): (r: string)
    ensures |r| == |s| && forall i :: 0 <= i < |s| ==> r[i] == if s[i] == '/' then separator else s[i]
  {
    seq(|s|, i requires 0 <= i < |s| => if s[i] == '/' then separator else s[i])
  }

  lemma SameSeparated(s: string, separator: char)
    ensures Separated(s, separator) == s <==> (separator == '/' || '/' !in s)
  {
    if separator != '/' && '/' in s {
      var i :| 0 <= i < |s| && s[i] == '/';
      assert Separated(s, separator)[i] != s[i];
    }
  }

  lemma SlashedNative(s: string, home: string)
    requires LooksLikeWindows(home) && !IsNativeWindows(home) && !EndsInTwoSlashes(home)
    ensures var separator := if '\\' in home then '\\' else '/';
            NativeSpelling(home, s) == StripSlashes(home) + [separator] + Separated(s, separator)
    ensures |StripSlashes(home)| == |NormalizedHome(home)| >= 3
    ensures ForwardSlashes(StripSlashes(home)) == NormalizedHome(home)
    ensures StripSlashes(home)[0] == home[0] && StripSlashes(home)[1] == home[1]
  {
    OneSlashStripped(home);
    assert |StripSlashes(home)| >= |home| - 1;
  }

  lemma FoldedUnder(stripped: string, separator: char, rest: string)
    requires LooksLikeWindows(stripped) && IsSlash(separator)
    ensures var n := ForwardSlashes(stripped);
            PathKey(n) + "/" <= PathKey(stripped + [separator] + rest)
  {
    var n, a := ForwardSlashes(stripped), stripped + [separator] + rest;
    assert PathKey(a)[..|n| + 1] == Fold(n) + "/";
    assert PathKey(n) == Fold(n);
  }

  lemma SlashedNativeForm(s: string, home: string)
    requires LooksLikeWindows(home) && !IsNativeWindows(home) && !EndsInTwoSlashes(home)
    ensures Finds(NativeSpelling(home, s), "~/" + s, Some(home)) <==> ('\\' in home ==> '/' !in s)
  {
    var a, stripped := NativeSpelling(home, s), StripSlashes(home);
    var separator := if '\\' in home then '\\' else '/';
    SlashedNative(s, home);
    SameSeparated(s, separator);
    FoldedUnder(stripped, separator, Separated(s, separator));
    assert a[0] == home[0] && a[1] == home[1] && Normalized(a) == a && a[|stripped| + 1..] == Separated(s, separator);
    FindsTilde(a, s, home);
  }

  /** A network home that does not begin with two backslashes keeps its separators, normalized or not. */
  lemma SlashedHome(s: string, home: string)
    requires LooksLikeWindows(home) && !IsNativeWindows(home)
    ensures Finds(NormalizedHome(home) + "/" + s, "~/" + s, Some(home))
    ensures !EndsInTwoSlashes(home) ==>
              (Finds(NativeSpelling(home, s), "~/" + s, Some(home)) <==> ('\\' in home ==> '/' !in s))
  {
    var n := NormalizedHome(home);
    var a := n + "/" + s;
    assert n[0] == '/' && a[0] == '/' && a[1] == '/' && PathKey(n) == Fold(n);
    FindsTilde(a, s, home);
    KeyUnder(n, s);
    assert a[|n| + 1..] == s;
    if !EndsInTwoSlashes(home) {
      SlashedNativeForm(s, home);
    }
  }

  /**
   * Under such a home every spelling of `~/s` finds it back exactly when the home does not end in two slashes and
   * does not turn the slashes of `s` into backslashes.
   */
  lemma SlashedTildeFoundBackIff(s: string, home: string)
    requires LooksLikeWindows(home) && !IsNativeWindows(home)
    ensures (forall a :: a in Aliases("~/" + s, Some(home)) ==> Finds(a, "~/" + s, Some(home))) <==>
              !EndsInTwoSlashes(home) && ('\\' in home ==> '/' !in s)
  {
    TildeAliasesFind(s, home);
    SlashedHome(s, home);
    if EndsInTwoSlashes(home) {
      DoubledSlashLosesTilde(s, home);
    }
  }

  lemma FoldConcat(a: string, b: string)
    ensures Fold(a + b) == Fold(a) + Fold(b)
  {
  }

  lemma StemOfHome(s: string, home: string) returns (slash: string)
    requires home != "" && !EndsInTwoSlashes(home)
    ensures slash in {"/", "\\"} && Expanded("~/" + s, home) == StripSlashes(home) + slash + s
  {
    var last := home[|home| - 1];
    slash := if last in "/\\" then [last] else "/";
    if last in "/\\" {
      assert StripSlashes(home) == home[..|home| - 1];
      assert home == StripSlashes(home) + slash;
    } else {
      assert StripSlashes(home) == home;
    }
    assert ("~/" + s)[2..] == s;
  }

  lemma UnderStem(stem: string, slash: string, s: string, full: string)
    requires slash in {"/", "\\"} && full == stem + slash + s
    ensures Fold(full) == Fold(stem) + "/" + Fold(s)
  {
    FoldConcat(stem + slash, s);
    FoldConcat(stem, slash);
  }

  lemma ForwardUnderHome(s: string, home: string)
    requires home != "" && !EndsInTwoSlashes(home)
    ensures Fold(NormalizedHome(home) + "/" + s) == Fold(Expanded("~/" + s, home))
  {
    var stem, full := StripSlashes(home), Expanded("~/" + s, home);
    var slash := StemOfHome(s, home);
    UnderStem(stem, slash, s, full);
    OneSlashStripped(home);
    UnderStem(ForwardSlashes(stem), "/", s, NormalizedHome(home) + "/" + s);
    assert Fold(ForwardSlashes(stem)) == Fold(stem);
  }

  lemma NativeUnderHome(s: string, home: string)
    requires home != "" && !EndsInTwoSlashes(home)
    ensures Fold(NativeSpelling(home, s)) == Fold(Expanded("~/" + s, home))
  {
    var stem, full, native := StripSlashes(home), Expanded("~/" + s, home), NativeSpelling(home, s);
    var slash := StemOfHome(s, home);
    UnderStem(stem, slash, s, full);
    var separator := if '\\' in home then '\\' else '/';
    assert native == stem + [separator] + Separated(s, separator);
    UnderStem(stem, [separator], Separated(s, separator), native);
    assert Fold(Separated(s, separator)) == Fold(s);
  }

  lemma UnderHomeKey(a: string, home: string, s: string)
    requires LooksLikeWindows(home) && Fold(a) == Fold(Expanded("~/" + s, home))
    ensures PathKey(a) == Fold(a)
  {
    var full := Expanded("~/" + s, home);
    assert full[0] == home[0] && full[1] == home[1] && LooksLikeWindows(full);
    FoldedAlike(a, full);
  }

  lemma KeysOfThree(aliases: set<string>, x: string, y: string, z: string, key: string)
    requires aliases == {x, y, z} && PathKey(x) == x && PathKey(y) == PathKey(z) == key
    ensures (set a | a in aliases :: PathKey(a)) == {x, key}
  {
  }

  lemma TildeKeys(s: string, home: string)
    requires LooksLikeWindows(home) && !EndsInTwoSlashes(home)
    ensures AliasKeys("~/" + s, Some(home)) == {"~/" + s, Fold(Expanded("~/" + s, home))}
  {
    var p, forward, native := "~/" + s, NormalizedHome(home) + "/" + s, NativeSpelling(home, s);
    assert PathKey(p) == p by { assert p[0] == '~'; }
    ForwardUnderHome(s, home);
    NativeUnderHome(s, home);
    UnderHomeKey(forward, home, s);
    UnderHomeKey(native, home, s);
    TildeAliases(s, home);
    KeysOfThree(Aliases(p, Some(home)), p, forward, native, Fold(Expanded(p, home)));
  }

  lemma WindowsKey(q: string, tilde: string)
    requires LooksLikeWindows(q) && "~" <= tilde
    ensures PathKey(q) == Fold(q) != tilde
  {
    assert Fold(q)[0] != '~' && tilde[0] == '~';
  }

  /** Under a Windows home `~/s` finds a Windows path exactly when that is the file which `~/s` stands for. */
  lemma TildeFindsIff(s: string, q: string, home: string)
    requires LooksLikeWindows(home) && !EndsInTwoSlashes(home) && LooksLikeWindows(q)
    ensures Finds("~/" + s, q, Some(home)) <==> SameFile(q, Expanded("~/" + s, home))
  {
    TildeKeys(s, home);
    SameFold(q, Expanded("~/" + s, home));
    WindowsKey(q, "~/" + s);
  }

  lemma HomeKey(home: string)
    requires LooksLikeWindows(home) && !EndsInTwoSlashes(home)
    ensures PathKey(NormalizedHome(home)) == Fold(NormalizedHome(home)) <==> !IsCapitalRoot(home)
  {
    if IsNativeWindows(home) {
      WindowsHome(home, "");
    }
  }

  /** Only a folded key begins a folded path. */
  lemma FoldedPrefix(n: string, full: string)
    requires PathKey(n) + "/" <= Fold(full)
    ensures PathKey(n) == Fold(n)
  {
    forall i | 0 <= i < |n| ensures PathKey(n)[i] == Fold(n)[i] {
      assert PathKey(n)[i] == (PathKey(n) + "/")[i] == Fold(full)[i];
    }
  }

  lemma WindowsFold(a: string)
    requires LooksLikeWindows(a)
    ensures |Normalized(a)| == |a| && PathKey(Normalized(a)) == Fold(Normalized(a)) == Fold(a)
  {
    NormalizedKey(a);
  }

  lemma StandsFor(a: string, s: string, home: string)
    requires home != "" && !EndsInTwoSlashes(home)
    ensures SameFile(a, Expanded("~/" + s, home)) <==> Fold(a) == Fold(NormalizedHome(home)) + "/" + Fold(s)
  {
    SameFold(a, Expanded("~/" + s, home));
    ForwardUnderHome(s, home);
    UnderStem(NormalizedHome(home), "/", s, NormalizedHome(home) + "/" + s);
  }

  predicate EndsIn(p: string, s: string) { |s| <= |p| && p[|p| - |s|..] == s }

  /** `full` is `n`, a slash and `s`, but for case and slashes in front of `s`. */
  predicate Extends(full: string, n: string, s: string) {
    Fold(n) + "/" <= Fold(full) && |n| < |full| && full[|n| + 1..] == s
  }

  lemma ExtendsIff(full: string, n: string, s: string)
    ensures Extends(full, n, s) <==> Fold(full) == Fold(n) + "/" + Fold(s) && EndsIn(full, s)
  {
    if Extends(full, n, s) {
      assert Fold(full)[|n| + 1..] == Fold(s);
      assert Fold(full) == (Fold(n) + "/") + Fold(full)[|n| + 1..];
    }
  }

  lemma FindsExtension(a: string, s: string, home: string)
    requires LooksLikeWindows(a) && LooksLikeWindows(home) && !EndsInTwoSlashes(home)
    ensures Finds(a, "~/" + s, Some(home)) <==>
              Extends(Normalized(a), NormalizedHome(home), s) && !IsCapitalRoot(home)
  {
    var n, full := NormalizedHome(home), Normalized(a);
    assert home != "" && a != "" && a[0] != '~';
    WindowsFold(a);
    FindsTilde(a, s, home);
    HomeKey(home);
    if PathKey(n) + "/" <= Fold(full) { FoldedPrefix(n, full); }
  }

  /**
   * Under a Windows home a Windows path finds `~/s` exactly when it is the file which `~/s` stands for and ends in
   * `s` letter by letter; but under a capital drive root none does.
   */
  lemma WindowsFindsTildeIff(a: string, s: string, home: string)
    requires LooksLikeWindows(a) && LooksLikeWindows(home) && !EndsInTwoSlashes(home)
    ensures Finds(a, "~/" + s, Some(home)) <==>
              SameFile(a, Expanded("~/" + s, home)) && EndsIn(Normalized(a), s) && !IsCapitalRoot(home)
  {
    FindsExtension(a, s, home);
    ExtendsIff(Normalized(a), NormalizedHome(home), s);
    WindowsFold(a);
    StandsFor(a, s, home);
  }

  /** A backslash after the tilde is lost on a drive. */
  lemma BackslashIsLost()
    ensures !Finds("C:/u/a\\b", "~/a\\b", Some("C:\\u"))
  {
    assert NormalizedHome("C:\\u") == "C:/u";
    assert "C:/u" + "/" + "a\\b" == "C:/u/a\\b";
    assert "~/" + "a\\b" == "~/a\\b";
    assert 'a' in "a\\b" && "a\\b"[1] == '\\';
    ForwardFormFinds("a\\b", "C:\\u");
  }
}
