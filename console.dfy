/**
 * The argument handling shared by the package's console commands
 * (src/Console/AbstractCommand.php): the action argument, the list of
 * model class names, and the check that a name is a huntable model.
 */
module Console {
  import opened PhpString
  import opened Php
  import opened Hydration

  // ---------------------------------------------------------------------------
  // getActionArgument
  // ---------------------------------------------------------------------------

  /** `getActionArgument`: the lower-cased action, which must be one of the valid ones. */
  function GetActionArgument(arg: string, valid: seq<string>): (r: Result<string>)
    ensures r.Success? <==> ToLower(arg) in valid
    ensures r.Success? ==> r.value == ToLower(arg) && r.value in valid
    ensures r.Failure? ==> r.error == RuntimeException("The [" + ToLower(arg) + "] option does not exist.")
  {
    var action := ToLower(arg);
    if action !in valid then Failure(RuntimeException("The [" + action + "] option does not exist."))
    else Success(action)
  }

  lemma {:induction false} ToLowerIdempotent(s: string)
    ensures ToLower(ToLower(s)) == ToLower(s)
  {
    if |s| > 0 {
      ToLowerIdempotent(s[1..]);
      assert ToLower(s)[1..] == ToLower(s[1..]);
    }
  }

  /** The action is matched whatever its case: an already lower-cased argument gives the same outcome. */
  lemma ActionCaseInsensitive(arg: string, valid: seq<string>)
    ensures GetActionArgument(ToLower(arg), valid) == GetActionArgument(arg, valid)
  {
    ToLowerIdempotent(arg);
  }

  // ---------------------------------------------------------------------------
  // Str::studly and getModelArgument
  // ---------------------------------------------------------------------------

  /** The characters `Str::studly` turns into word breaks and then removes. */
  predicate IsStudlySeparator(c: char) {
    c == '-' || c == '_' || c == ' '
  }

  predicate IsLetter(c: char) {
    'a' <= c <= 'z' || 'A' <= c <= 'Z'
  }

  /** `strtoupper` on one character: the ASCII letters only. */
  function UpperChar(c: char): (r: char)
    ensures IsLetter(c) <==> IsLetter(r)
    ensures !('a' <= c <= 'z') ==> r == c
  {
    if 'a' <= c <= 'z' then (c as int - 32) as char else c
  }

  /**
   * `Str::studly` from a point where the next kept character starts a word
   * (`cap`) or not: `-`, `_` and spaces become word breaks and are removed;
   * `ucwords` capitalises the first character of every word, a word also
   * starting after any other whitespace character, which is kept.
   */
  function StudlyFrom(s: string, cap: bool): (r: string)
    ensures |r| <= |s|
    ensures forall i :: 0 <= i < |r| ==> !IsStudlySeparator(r[i])
  {
    if |s| == 0 then ""
    else if IsStudlySeparator(s[0]) then StudlyFrom(s[1..], true)
    else [if cap then UpperChar(s[0]) else s[0]] + StudlyFrom(s[1..], IsWhitespace(s[0]))
  }

  /** `Str::studly`. */
  function Studly(s: string): string {
    StudlyFrom(s, true)
  }

  /** Studly-casing keeps every character that is neither a letter nor a separator, and adds none. */
  lemma {:induction false} StudlyKeeps(s: string, cap: bool, c: char)
    requires !IsLetter(c) && !IsStudlySeparator(c)
    ensures Occurrences(c, StudlyFrom(s, cap)) == Occurrences(c, s)
  {
    if |s| > 0 {
      StudlyKeeps(s[1..], true, c);
      StudlyKeeps(s[1..], IsWhitespace(s[0]), c);
    }
  }

  /** A character that is not whitespace stays out of a studly-cased string without it. */
  lemma {:induction false} StudlyNoWhitespace(s: string, cap: bool)
    requires NoWhitespace(s)
    ensures NoWhitespace(StudlyFrom(s, cap))
  {
    if |s| > 0 {
      assert NoWhitespace(s[1..]) by {
        forall i | 0 <= i < |s[1..]| ensures !IsWhitespace(s[1..][i]) {
          assert s[1..][i] == s[i + 1];
        }
      }
      StudlyNoWhitespace(s[1..], true);
      StudlyNoWhitespace(s[1..], false);
      var r := StudlyFrom(s, cap);
      if !IsStudlySeparator(s[0]) {
        var rest := StudlyFrom(s[1..], false);
        assert r == [if cap then UpperChar(s[0]) else s[0]] + rest;
        forall i | 0 <= i < |r| ensures !IsWhitespace(r[i]) {
          if i > 0 { assert r[i] == rest[i - 1]; }
        }
      }
    }
  }

  /**
   * Studly-casing twice is studly-casing once; the second pass may start a
   * word only where the first did.
   */
  lemma {:induction false} StudlyFromIdempotent(s: string, first: bool, second: bool)
    requires second ==> first
    ensures StudlyFrom(StudlyFrom(s, first), second) == StudlyFrom(s, first)
  {
    if |s| > 0 {
      if IsStudlySeparator(s[0]) {
        StudlyFromIdempotent(s[1..], true, second);
      } else {
        var e := if first then UpperChar(s[0]) else s[0];
        var d := IsWhitespace(s[0]);
        var rest := StudlyFrom(s[1..], d);
        StudlyFromIdempotent(s[1..], d, d);
        assert StudlyFrom(s, first) == [e] + rest;
        assert ([e] + rest)[1..] == rest;
        assert !IsStudlySeparator(e) && IsWhitespace(e) == d;
        assert (if second then UpperChar(e) else e) == e;
      }
    }
  }

  lemma StudlyIdempotent(s: string)
    ensures Studly(Studly(s)) == Studly(s)
  {
    StudlyFromIdempotent(s, true, true);
  }

  /** A word without separators or whitespace only has its first letter capitalised. */
  lemma StudlyWord(s: string)
    requires |s| > 0 && NoWhitespace(s) && forall i :: 0 <= i < |s| ==> !IsStudlySeparator(s[i])
    ensures Studly(s) == [UpperChar(s[0])] + s[1..]
  {
    PlainTail(s[1..]);
    assert s[1..][0..] == s[1..];
  }

  lemma {:induction false} PlainTail(s: string)
    requires NoWhitespace(s) && forall i :: 0 <= i < |s| ==> !IsStudlySeparator(s[i])
    ensures StudlyFrom(s, false) == s
  {
    if |s| > 0 {
      assert NoWhitespace(s[1..]) && forall i :: 0 <= i < |s[1..]| ==> !IsStudlySeparator(s[1..][i]) by {
        forall i | 0 <= i < |s[1..]| ensures !IsWhitespace(s[1..][i]) && !IsStudlySeparator(s[1..][i]) {
          assert s[1..][i] == s[i + 1];
        }
      }
      PlainTail(s[1..]);
      assert s == [s[0]] + s[1..];
    }
  }

  /** Studly-casing every segment. */
  function StudlyEach(parts: seq<string>): (r: seq<string>)
    ensures |r| == |parts|
    ensures forall i :: 0 <= i < |parts| ==> r[i] == Studly(parts[i])
  {
    seq(|parts|, i requires 0 <= i < |parts| => Studly(parts[i]))
  }

  /** One class name: every namespace segment studly-cased, joined again with `\`. */
  function StudlyPath(name: string): string {
    Implode('\\', StudlyEach(Explode('\\', name)))
  }

  /** `getModelArgument`: whitespace removed, split at commas, each name studly-cased. */
  function GetModelArgument(arg: string): (names: seq<string>)
    ensures |names| == |Explode(',', StripWhitespace(arg))| == Occurrences(',', StripWhitespace(arg)) + 1
    ensures forall i :: 0 <= i < |names| ==> names[i] == StudlyPath(Explode(',', StripWhitespace(arg))[i])
  {
    var models := Explode(',', StripWhitespace(arg));
    ExplodePieces(',', StripWhitespace(arg));
    seq(|models|, i requires 0 <= i < |models| => StudlyPath(models[i]))
  }

  /** Every character of a joined string is the separator or a character of a part. */
  lemma {:induction false} ImplodeChars(sep: char, parts: seq<string>, c: char)
    requires c in Implode(sep, parts)
    ensures c == sep || exists i :: 0 <= i < |parts| && c in parts[i]
  {
    if |parts| > 1 && c != sep && c !in parts[0] {
      assert c in Implode(sep, parts[1..]);
      ImplodeChars(sep, parts[1..], c);
      var i :| 0 <= i < |parts[1..]| && c in parts[1..][i];
      assert parts[1..][i] == parts[i + 1];
    }
  }

  /** A segment of a class name as the commands leave it: no `\`, no comma, no whitespace. */
  predicate Plain(p: string) {
    '\\' !in p && ',' !in p && NoWhitespace(p)
  }

  lemma StudlyPlain(p: string)
    requires Plain(p)
    ensures Plain(Studly(p))
  {
    StudlyKeeps(p, true, '\\');
    OccurrencesZero('\\', p);
    OccurrencesZero('\\', Studly(p));
    StudlyKeeps(p, true, ',');
    OccurrencesZero(',', p);
    OccurrencesZero(',', Studly(p));
    StudlyNoWhitespace(p, true);
  }

  /** The segments of a name without commas or whitespace are plain. */
  lemma SegmentsPlain(name: string)
    requires ',' !in name && NoWhitespace(name)
    ensures forall i :: 0 <= i < |Explode('\\', name)| ==> Plain(Explode('\\', name)[i])
  {
    var pieces := Explode('\\', name);
    ExplodePieces('\\', name);
    forall i | 0 <= i < |pieces| ensures Plain(pieces[i]) {
      forall c | c in pieces[i] ensures c != ',' && !IsWhitespace(c) {
        ExplodeChars('\\', name, i, c);
      }
      forall k | 0 <= k < |pieces[i]| ensures !IsWhitespace(pieces[i][k]) {
        assert pieces[i][k] in pieces[i];
      }
    }
  }

  /** Joining parts without commas or whitespace, by a character that is neither, gives a string without either. */
  lemma ImplodeKeepsOut(sep: char, parts: seq<string>)
    requires sep != ',' && !IsWhitespace(sep)
    requires forall i :: 0 <= i < |parts| ==> ',' !in parts[i] && NoWhitespace(parts[i])
    ensures ',' !in Implode(sep, parts) && NoWhitespace(Implode(sep, parts))
  {
    var joined := Implode(sep, parts);
    forall c | c in joined ensures c != ',' && !IsWhitespace(c) {
      ImplodeChars(sep, parts, c);
      if c != sep {
        var i :| 0 <= i < |parts| && c in parts[i];
        var k :| 0 <= k < |parts[i]| && parts[i][k] == c;
      }
    }
    forall k | 0 <= k < |joined| ensures !IsWhitespace(joined[k]) {
      assert joined[k] in joined;
    }
  }

  /**
   * The segments of a studly-cased name are the studly-cased segments of
   * the name, and it gains no comma or whitespace.
   */
  lemma StudlyPathSegments(name: string)
    requires ',' !in name && NoWhitespace(name)
    ensures Explode('\\', StudlyPath(name)) == StudlyEach(Explode('\\', name))
    ensures ',' !in StudlyPath(name) && NoWhitespace(StudlyPath(name))
  {
    var parts := StudlyEach(Explode('\\', name));
    SegmentsPlain(name);
    forall i | 0 <= i < |parts| ensures Plain(parts[i]) {
      StudlyPlain(Explode('\\', name)[i]);
    }
    ExplodeImplode('\\', parts);
    ImplodeKeepsOut('\\', parts);
  }

  /** Studly-casing a name twice is studly-casing it once. */
  lemma StudlyPathIdempotent(name: string)
    requires ',' !in name && NoWhitespace(name)
    ensures StudlyPath(StudlyPath(name)) == StudlyPath(name)
  {
    var parts := StudlyEach(Explode('\\', name));
    StudlyPathSegments(name);
    forall i | 0 <= i < |parts| ensures Studly(parts[i]) == parts[i] {
      StudlyIdempotent(Explode('\\', name)[i]);
    }
    assert StudlyEach(parts) == parts;
  }

  /**
   * Every model name has its `-`, `_` and whitespace removed and holds no
   * comma; its namespace segments are those of the argument, studly-cased.
   */
  lemma ModelNames(arg: string)
    ensures var names := GetModelArgument(arg);
      forall i :: 0 <= i < |names| ==> ',' !in names[i] && NoWhitespace(names[i]) && '-' !in names[i] && '_' !in names[i]
    ensures var names := GetModelArgument(arg); var models := Explode(',', StripWhitespace(arg));
      forall i :: 0 <= i < |names| ==> Explode('\\', names[i]) == StudlyEach(Explode('\\', models[i]))
  {
    var names := GetModelArgument(arg);
    var models := Explode(',', StripWhitespace(arg));
    ExplodePieces(',', StripWhitespace(arg));
    forall i | 0 <= i < |names|
      ensures ',' !in names[i] && NoWhitespace(names[i]) && '-' !in names[i] && '_' !in names[i]
      ensures Explode('\\', names[i]) == StudlyEach(Explode('\\', models[i]))
    {
      ModelPlain(arg, i);
      StudlyPathSegments(models[i]);
      var parts := StudlyEach(Explode('\\', models[i]));
      forall c | c in names[i] ensures c != '-' && c != '_' {
        ImplodeChars('\\', parts, c);
        if c != '\\' {
          var j :| 0 <= j < |parts| && c in parts[j];
          var k :| 0 <= k < |parts[j]| && parts[j][k] == c;
          assert !IsStudlySeparator(StudlyFrom(Explode('\\', models[i])[j], true)[k]);
        }
      }
    }
  }

  /** A comma-separated piece of the stripped argument holds no comma and no whitespace. */
  lemma ModelPlain(arg: string, i: nat)
    requires i < |Explode(',', StripWhitespace(arg))|
    ensures ',' !in Explode(',', StripWhitespace(arg))[i] && NoWhitespace(Explode(',', StripWhitespace(arg))[i])
  {
    var s := StripWhitespace(arg);
    var piece := Explode(',', s)[i];
    ExplodePieces(',', s);
    forall k | 0 <= k < |piece| ensures !IsWhitespace(piece[k]) {
      assert piece[k] in piece;
      ExplodeChars(',', s, i, piece[k]);
    }
  }

  /** Normalising the normalised list again changes nothing. */
  lemma ModelArgumentIdempotent(arg: string)
    ensures GetModelArgument(Implode(',', GetModelArgument(arg))) == GetModelArgument(arg)
  {
    var names := GetModelArgument(arg);
    var models := Explode(',', StripWhitespace(arg));
    ModelNames(arg);
    var joined := Implode(',', names);
    forall c | c in joined ensures !IsWhitespace(c) {
      ImplodeChars(',', names, c);
      if c != ',' {
        var i :| 0 <= i < |names| && c in names[i];
        var k :| 0 <= k < |names[i]| && names[i][k] == c;
      }
    }
    assert NoWhitespace(joined) by {
      forall k | 0 <= k < |joined| ensures !IsWhitespace(joined[k]) {
        assert joined[k] in joined;
      }
    }
    StripWhitespaceFixpoint(joined);
    ExplodeImplode(',', names);
    forall i | 0 <= i < |names| ensures StudlyPath(names[i]) == names[i] {
      ModelPlain(arg, i);
      StudlyPathIdempotent(models[i]);
    }
  }

  // ---------------------------------------------------------------------------
  // validateModel
  // ---------------------------------------------------------------------------

  /** What `validateModel` reports: the error it prints, or the qualified class name. */
  datatype Validation = Rejected(message: string) | Accepted(cls: string)

  /** The name `validateModel` checks: under `\App\` unless it starts with `\`. */
  function Qualified(name: string): (r: string)
    requires |name| > 0
    ensures |r| > 0 && r[0] == '\\'
  {
    if name[0] != '\\' then "\\App\\" + name else name
  }

  /**
   * `validateModel`: the class must exist and use the `Huntable` trait. An
   * empty name fails on reading its first character.
   */
  function ValidateModel(name: string, reg: Registry): (r: Result<Validation>)
    ensures r.Failure? <==> |name| == 0
    ensures r.Success? ==> (r.value.Accepted? <==> ClassName(Qualified(name)) in reg && reg[ClassName(Qualified(name))].huntable)
    ensures r.Success? && r.value.Accepted? ==> r.value.cls == Qualified(name)
    ensures r.Success? && r.value.Rejected? ==> (r.value.message ==
      if ClassName(Qualified(name)) !in reg then "Model [" + Qualified(name) + "] not found"
      else "Model [" + Qualified(name) + "] is not a valid Laravel Hunt model.")
  {
    if |name| == 0 then Failure(UninitializedOffset(0))
    else
      var cls := Qualified(name);
      if ClassName(cls) !in reg then Success(Rejected("Model [" + cls + "] not found"))
      else if !reg[ClassName(cls)].huntable then Success(Rejected("Model [" + cls + "] is not a valid Laravel Hunt model."))
      else Success(Accepted(cls))
  }

  /** A name without a leading `\` is looked up in the `App` namespace. */
  lemma ValidateInAppNamespace(name: string, reg: Registry)
    requires |name| > 0 && name[0] != '\\'
    ensures ClassName(Qualified(name)) == "App\\" + name
  {
    assert ("\\App\\" + name)[1..] == "App\\" + name;
  }

  /** Validating an accepted name again accepts it unchanged. */
  lemma ValidateAcceptedAgain(name: string, reg: Registry)
    requires ValidateModel(name, reg).Success? && ValidateModel(name, reg).value.Accepted?
    ensures ValidateModel(ValidateModel(name, reg).value.cls, reg) == ValidateModel(name, reg)
  {
  }
}
