/**
 The two guards on relative paths: the regular expression on backup file names, and the component check
 on snapshot paths.  Both are related to the components of the path and to lexical normalisation.
 */
module RelativePaths {
  import opened Wrappers
  import opened Strings

  // ---------------------------------------------------------------- components by position

  /** `w` fills the stretch from `i` to the next "/" or the end. */
  predicate EndsComponent(s: string, w: string, i: nat) {
    i + |w| <= |s| && s[i..i + |w|] == w && (i + |w| == |s| || s[i + |w|] == '/')
  }

  predicate StartsComponent(s: string, i: nat) {
    i == 0 || (i <= |s| && s[i - 1] == '/')
  }

  lemma {:induction false} FirstComponent(s: string, w: string)
    requires '/' !in w
    ensures Split(s)[0] == w <==> EndsComponent(s, w, 0)
  {
    if s != "" && s[0] != '/' && w != "" {
      FirstComponent(s[1..], w[1..]);
      assert s[0..|s|] == s;
      if |w| <= |s| {
        assert s[..|w|] == [s[0]] + s[1..][..|w| - 1];
        assert w == [w[0]] + w[1..];
      }
    } else if s != "" && s[0] == '/' && w != "" {
      assert w[0] in w;
    }
  }

  lemma {:induction false} LaterComponent(s: string, w: string)
    requires '/' !in w
    ensures w in Split(s)[1..] <==> exists i: nat :: 1 <= i <= |s| && s[i - 1] == '/' && EndsComponent(s, w, i)
  {
    if s != "" {
      var t := s[1..];
      LaterComponent(t, w);
      FirstComponent(t, w);
      assert Split(s)[1..] == if s[0] == '/' then Split(t) else Split(t)[1..];
      assert Split(t) == [Split(t)[0]] + Split(t)[1..];
      forall i: nat | i <= |t| ensures EndsComponent(s, w, i + 1) <==> EndsComponent(t, w, i) {
        if i + |w| <= |t| { assert s[i + 1..i + 1 + |w|] == t[i..i + |w|]; }
      }
      if w in Split(s)[1..] {
        if s[0] == '/' && Split(t)[0] == w {
          assert EndsComponent(s, w, 1);
        } else {
          var i: nat :| 1 <= i <= |t| && t[i - 1] == '/' && EndsComponent(t, w, i);
          assert EndsComponent(s, w, i + 1) && s[i] == '/';
        }
      }
      if i: nat :| 1 <= i <= |s| && s[i - 1] == '/' && EndsComponent(s, w, i) {
        assert EndsComponent(t, w, i - 1);
        if i > 1 { assert t[i - 2] == '/'; }
      }
    }
  }

  /** The components of a path are the words that stand between "/" and the ends. */
  lemma {:induction false} ComponentsByPosition(s: string, w: string)
    requires '/' !in w
    ensures w in Split(s) <==> exists i: nat :: i <= |s| && StartsComponent(s, i) && EndsComponent(s, w, i)
  {
    FirstComponent(s, w);
    LaterComponent(s, w);
    assert Split(s) == [Split(s)[0]] + Split(s)[1..];
    if EndsComponent(s, w, 0) { assert StartsComponent(s, 0); }
    if i: nat :| 1 <= i <= |s| && s[i - 1] == '/' && EndsComponent(s, w, i) { assert StartsComponent(s, i); }
  }

  // ---------------------------------------------------------------- the regular expression

  predicate PortableChar(c: char) {
    'A' <= c <= 'Z' || 'a' <= c <= 'z' || '0' <= c <= '9' || c == '.' || c == '_' || c == '/' || c == '-'
  }

  predicate AllPortable(s: string) {
    forall i :: 0 <= i < |s| ==> PortableChar(s[i])
  }

  /** `^(?!/)(?!.*(?:^|/)\.\.(?:/|$))[A-Za-z0-9._/-]+$`, matched on the whole string. */
  predicate PortableRelative(s: string) {
    && !(s != "" && s[0] == '/')
    && !(exists i: nat :: i <= |s| && StartsComponent(s, i) && EndsComponent(s, "..", i))
    && s != "" && AllPortable(s)
  }

  /** The expression accepts exactly the relative paths over its characters without a ".." component. */
  lemma {:induction false} PortableRelativeExact(s: string)
    ensures PortableRelative(s) <==> s != "" && AllPortable(s) && s[0] != '/' && ".." !in Split(s)
    ensures AllPortable(s) <==> forall i :: 0 <= i < |s| ==>
      45 <= s[i] as int <= 57 || 65 <= s[i] as int <= 90 || s[i] as int == 95 || 97 <= s[i] as int <= 122
  {
    ComponentsByPosition(s, "..");
    forall c: char ensures PortableChar(c) <==>
      45 <= c as int <= 57 || 65 <= c as int <= 90 || c as int == 95 || 97 <= c as int <= 122 {}
  }

  // ---------------------------------------------------------------- normalisation

  /** Following components from a directory below the root; `None` is a step above the root. */
  function Walk(at: seq<string>, components: seq<string>): Option<seq<string>>
    decreases components
  {
    if components == [] then Some(at)
    else
      var c := components[0];
      if c == "" || c == "." then Walk(at, components[1..])
      else if c == ".." then (if at == [] then None else Walk(at[..|at| - 1], components[1..]))
      else Walk(at + [c], components[1..])
  }

  function Named(components: seq<string>): seq<string> {
    if components == [] then []
    else if components[0] == "" || components[0] == "." then Named(components[1..])
    else [components[0]] + Named(components[1..])
  }

  lemma {:induction false} NamedEmpty(components: seq<string>)
    ensures Named(components) == [] <==> forall c :: c in components ==> c == "" || c == "."
  {
    if components != [] {
      NamedEmpty(components[1..]);
      assert forall c :: c in components <==> c == components[0] || c in components[1..];
      if components[0] != "" && components[0] != "." {
        assert components[0] in components;
        assert |Named(components)| > 0;
      } else {
        assert Named(components) == Named(components[1..]);
      }
    }
  }

  lemma {:induction false} WalkWithoutParents(at: seq<string>, components: seq<string>)
    requires ".." !in components
    ensures Walk(at, components) == Some(at + Named(components))
    decreases components
  {
    if components == [] {
      assert at + [] == at;
    } else {
      assert components[0] in components;
      assert forall c :: c in components[1..] ==> c in components;
      var c := components[0];
      if c == "" || c == "." {
        WalkWithoutParents(at, components[1..]);
      } else {
        WalkWithoutParents(at + [c], components[1..]);
        assert at + [c] + Named(components[1..]) == at + ([c] + Named(components[1..]));
      }
    }
  }

  /** A name the expression accepts never leads above the root, and below it exactly when some component
      is neither empty nor ".". */
  lemma {:induction false} PortableStaysUnderRoot(s: string)
    requires PortableRelative(s)
    ensures Walk([], Split(s)) == Some(Named(Split(s)))
    ensures Named(Split(s)) == [] <==> forall c :: c in Split(s) ==> c == "" || c == "."
  {
    PortableRelativeExact(s);
    WalkWithoutParents([], Split(s));
    NamedEmpty(Split(s));
    assert [] + Named(Split(s)) == Named(Split(s));
  }

  /** The expression does accept a name of the root itself. */
  lemma {:induction false} PortableMayNameRoot()
    ensures PortableRelative(".") && Walk([], Split(".")) == Some([])
  {
    assert Split(".") == ["."] by {
      assert "."[1..] == "";
      assert Split("") == [""];
      assert ['.'] + "" == ".";
      assert [""][1..] == [];
    }
    PortableRelativeExact(".");
  }

  // ---------------------------------------------------------------- the component guard

  predicate Control(c: char) {
    c < ' ' || c == '\U{7F}'
  }

  /** The lexical part of `_safe_relative`. */
  predicate SafeName(s: string) {
    && s != "" && s[0] != '/'
    && (forall i :: 0 <= i < |s| ==> s[i] != '\\' && !Control(s[i]))
    && (forall c :: c in Split(s) ==> c != "" && c != "." && c != ".." && c != ".git")
  }

  /** The guard by positions in the text: no leading separator, no backslash, no control code, and between
      separators or ends nothing empty and none of the three names. */
  lemma {:induction false} SafeNameExact(s: string)
    ensures SafeName(s) <==>
      && |s| > 0 && s[0] != '/'
      && (forall i :: 0 <= i < |s| ==> s[i] != '\\' && 32 <= s[i] as int != 127)
      && forall i, j :: 0 <= i <= j <= |s| && (i == 0 || s[i - 1] == '/') && (j == |s| || s[j] == '/') ==>
           s[i..j] != "" && s[i..j] != "." && s[i..j] != ".." && s[i..j] != ".git"
  {
    ControlExact(s);
    StretchNotIn(s, "");
    StretchNotIn(s, ".");
    StretchNotIn(s, "..");
    StretchNotIn(s, ".git");
  }

  lemma {:induction false} ControlExact(s: string)
    ensures (forall i :: 0 <= i < |s| ==> !Control(s[i])) <==> forall i :: 0 <= i < |s| ==> 32 <= s[i] as int != 127
  {
  }

  lemma {:induction false} StretchNotIn(s: string, w: string)
    requires '/' !in w
    ensures w !in Split(s) <==>
      forall i, j :: 0 <= i <= j <= |s| && (i == 0 || s[i - 1] == '/') && (j == |s| || s[j] == '/') ==> s[i..j] != w
  {
    ComponentsByPosition(s, w);
    if i, j :| 0 <= i <= j <= |s| && (i == 0 || s[i - 1] == '/') && (j == |s| || s[j] == '/') && s[i..j] == w {
      assert StartsComponent(s, i) && EndsComponent(s, w, i);
    }
    if i: nat :| i <= |s| && StartsComponent(s, i) && EndsComponent(s, w, i) {
      assert s[i..i + |w|] == w;
    }
  }

  /** A guarded name is its own normal form and lies strictly under the root. */
  lemma {:induction false} SafeNameIsNormal(s: string)
    requires SafeName(s)
    ensures Walk([], Split(s)) == Some(Split(s)) && |Split(s)| >= 1
  {
    WalkWithoutParents([], Split(s));
    AllNamed(Split(s));
    assert [] + Split(s) == Split(s);
  }

  lemma {:induction false} AllNamed(components: seq<string>)
    requires "" !in components && "." !in components
    ensures Named(components) == components
  {
    if components != [] {
      assert components[0] in components;
      assert forall c :: c in components[1..] ==> c in components;
      AllNamed(components[1..]);
    }
  }

  /** Being its own normal form says exactly that no component is empty, "." or "..". */
  lemma {:induction false} NormalFormExact(s: string)
    ensures Walk([], Split(s)) == Some(Split(s)) <==> "" !in Split(s) && "." !in Split(s) && ".." !in Split(s)
  {
    if "" !in Split(s) && "." !in Split(s) && ".." !in Split(s) {
      WalkWithoutParents([], Split(s));
      AllNamed(Split(s));
      assert [] + Split(s) == Split(s);
    } else {
      WalkLosesSteps([], Split(s));
    }
  }

  lemma {:induction false} WalkLosesSteps(at: seq<string>, components: seq<string>)
    ensures Walk(at, components).Some? ==> |Walk(at, components).value| <= |at| + |components|
    ensures Walk(at, components).Some? && ("" in components || "." in components || ".." in components) ==>
      |Walk(at, components).value| < |at| + |components|
    decreases components
  {
    if components != [] {
      var c := components[0];
      assert components == [c] + components[1..];
      if c == "" || c == "." {
        WalkLosesSteps(at, components[1..]);
      } else if c == ".." {
        if at != [] { WalkLosesSteps(at[..|at| - 1], components[1..]); }
      } else {
        WalkLosesSteps(at + [c], components[1..]);
      }
    }
  }
}
