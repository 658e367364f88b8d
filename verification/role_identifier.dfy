/** The identifier field of the role form (app/components/crud-forms/role-form.tsx):
    the identifier generated from the role name, the filter applied to a typed
    identifier, the flag that stops generation after the first manual edit,
    and the form title. */
module RoleIdentifier {
  import opened SeqUtil
  import opened JsText

  /** A character of the class `[a-z0-9-_]`. */
  predicate IsIdentifierChar(c: char) {
    IsAsciiLower(c) || IsDigit(c) || c == '-' || c == '_'
  }

  /** Every character is in `[a-z0-9-_]`: the string matches `^[a-z0-9-_]*$`. */
  predicate IsIdentifier(s: string) {
    forall i :: 0 <= i < |s| ==> IsIdentifierChar(s[i])
  }

  /** `s.replace(/[^a-z0-9-_]/g, '')`. */
  function StripInvalid(s: string): string {
    Keep(s, IsIdentifierChar)
  }

  /** `s.replace(/\s+/g, '-')`: each maximal run of whitespace becomes one hyphen. */
  function HyphenateWhitespace(s: string): (r: string)
    ensures forall i :: 0 <= i < |r| ==> !IsWhitespace(r[i])
    decreases |s|
  {
    if s == [] then []
    else if IsWhitespace(s[0]) then "-" + HyphenateWhitespace(s[LeadingBlank(s)..])
    else [s[0]] + HyphenateWhitespace(s[1..])
  }

  /** The identifier generated from the role name (role-form.tsx:25-29): trim,
      lowercase, hyphenate whitespace runs, then drop every other invalid character. */
  function GeneratedIdentifier(name: string): (r: string)
    ensures IsIdentifier(r)
  {
    StripInvalid(HyphenateWhitespace(Lower(Trim(name))))
  }

  /** The filter applied to a typed identifier (role-form.tsx:43): lowercase,
      then drop every invalid character. Spaces are dropped, not hyphenated. */
  function TypedIdentifier(raw: string): (r: string)
    ensures IsIdentifier(r)
  {
    StripInvalid(Lower(raw))
  }

  /** A string without whitespace is left alone by the hyphenation step. */
  lemma {:induction false} HyphenateNoWhitespace(s: string)
    requires forall i :: 0 <= i < |s| ==> !IsWhitespace(s[i])
    ensures HyphenateWhitespace(s) == s
  {
    if s != [] {
      HyphenateNoWhitespace(s[1..]);
    }
  }

  /** A whitespace run between a whitespace-free prefix and a suffix that does not
      start with whitespace becomes exactly one hyphen. */
  lemma {:induction false} HyphenateRun(a: string, w: string, b: string)
    requires forall i :: 0 <= i < |a| ==> !IsWhitespace(a[i])
    requires w != [] && IsBlank(w)
    requires b == [] || !IsWhitespace(b[0])
    ensures HyphenateWhitespace(a + w + b) == a + "-" + HyphenateWhitespace(b)
  {
    if a == [] {
      assert a + w + b == w + b;
      HyphenateLeadingRun(w, b);
    } else {
      assert (a + w + b)[1..] == a[1..] + w + b;
      HyphenateRun(a[1..], w, b);
      assert [a[0]] + (a[1..] + "-" + HyphenateWhitespace(b)) == a + "-" + HyphenateWhitespace(b);
    }
  }

  /** A leading whitespace run becomes one hyphen. */
  lemma HyphenateLeadingRun(w: string, b: string)
    requires w != [] && IsBlank(w)
    requires b == [] || !IsWhitespace(b[0])
    ensures HyphenateWhitespace(w + b) == "-" + HyphenateWhitespace(b)
  {
    var s := w + b;
    assert forall i :: 0 <= i < |w| ==> s[i] == w[i];
    assert |w| < |s| ==> s[|w|] == b[0];
    assert LeadingBlank(s) == |w|;
    assert s[|w|..] == b;
  }

  /** A valid identifier passes through both transforms unchanged. */
  lemma IdentifierUnchanged(s: string)
    requires IsIdentifier(s)
    ensures TypedIdentifier(s) == s
    ensures GeneratedIdentifier(s) == s
  {
    assert forall i :: 0 <= i < |s| ==> !IsWhitespace(s[i]) && !IsAsciiUpper(s[i]);
    LowerNoUpper(s);
    KeepAll(s, IsIdentifierChar);
    if s != [] {
      TrimNoOuterWhitespace(s);
    }
    HyphenateNoWhitespace(s);
  }

  /** Generating an identifier from an identifier changes nothing. */
  lemma GeneratedIdempotent(name: string)
    ensures GeneratedIdentifier(GeneratedIdentifier(name)) == GeneratedIdentifier(name)
  {
    IdentifierUnchanged(GeneratedIdentifier(name));
  }

  /** Filtering a filtered identifier changes nothing. */
  lemma TypedIdempotent(raw: string)
    ensures TypedIdentifier(TypedIdentifier(raw)) == TypedIdentifier(raw)
  {
    IdentifierUnchanged(TypedIdentifier(raw));
  }

  /** The typed filter works character by character. */
  lemma TypedAppend(a: string, b: string)
    ensures TypedIdentifier(a + b) == TypedIdentifier(a) + TypedIdentifier(b)
  {
    LowerAppend(a, b);
    KeepAppend(Lower(a), Lower(b), IsIdentifierChar);
  }

  /** The field's value after typing `keys` one keystroke at a time, each
      keystroke appending to the value already filtered. */
  function TypeKeys(value: string, keys: string): string
    decreases |keys|
  {
    if keys == [] then value else TypeKeys(TypedIdentifier(value + [keys[0]]), keys[1..])
  }

  /** Filtering keystroke by keystroke gives the filter of the whole input. */
  lemma {:induction false} TypeKeysFiltersWhole(typed: string, keys: string)
    ensures TypeKeys(TypedIdentifier(typed), keys) == TypedIdentifier(typed + keys)
    decreases |keys|
  {
    if keys != [] {
      var v := TypedIdentifier(typed);
      calc {
        TypedIdentifier(v + [keys[0]]);
        { TypedAppend(v, [keys[0]]); TypedIdempotent(typed); }
        TypedIdentifier(typed) + TypedIdentifier([keys[0]]);
        { TypedAppend(typed, [keys[0]]); }
        TypedIdentifier(typed + [keys[0]]);
      }
      assert TypeKeys(v, keys) == TypeKeys(TypedIdentifier(v + [keys[0]]), keys[1..]);
      TypeKeysFiltersWhole(typed + [keys[0]], keys[1..]);
      assert typed + [keys[0]] + keys[1..] == typed + keys;
    } else {
      assert typed + keys == typed;
    }
  }

  /** Typing into the empty field leaves the filter of what was typed. */
  lemma TypingIntoEmptyField(keys: string)
    ensures TypeKeys([], keys) == TypedIdentifier(keys)
  {
    TypeKeysFiltersWhole([], keys);
    assert [] + keys == keys;
  }

  /** A chunk whose lowercase is a valid identifier is only lowercased. */
  lemma TypedLowered(s: string, t: string)
    requires |s| == |t| && IsIdentifier(t)
    requires forall i :: 0 <= i < |s| ==> LowerChar(s[i]) == t[i]
    ensures TypedIdentifier(s) == t
  {
    assert Lower(s) == t;
    KeepAll(t, IsIdentifierChar);
  }

  /** 'ADMIN-ROLE' filters to 'admin-role' (role-form.test.tsx:324-334). */
  lemma TypedExampleUpperHyphen()
    ensures TypedIdentifier("ADMIN-ROLE") == "admin-role"
  {
    TypedLowered("ADMIN-ROLE", "admin-role");
  }

  /** 'AdminRole' filters to 'adminrole' (role-form.test.tsx:336-346). */
  lemma TypedExampleMixedCase()
    ensures TypedIdentifier("AdminRole") == "adminrole"
  {
    TypedLowered("AdminRole", "adminrole");
  }

  /** 'ROLE123' filters to 'role123' (role-form.test.tsx:348-358). */
  lemma TypedExampleUpperDigits()
    ensures TypedIdentifier("ROLE123") == "role123"
  {
    TypedLowered("ROLE123", "role123");
  }

  /** 'ADMIN-ROLE_TEST' filters to 'admin-role_test' (role-form.test.tsx:360-371). */
  lemma TypedExampleUpperUnderscore()
    ensures TypedIdentifier("ADMIN-ROLE_TEST") == "admin-role_test"
  {
    TypedLowered("ADMIN-ROLE_TEST", "admin-role_test");
  }

  /** A chunk with no valid character, even after lowercasing, disappears. */
  lemma {:induction false} TypedDropped(s: string)
    requires forall i :: 0 <= i < |s| ==> !IsIdentifierChar(LowerChar(s[i]))
    ensures TypedIdentifier(s) == []
  {
    if s != [] {
      TypedAppend([s[0]], s[1..]);
      assert [s[0]] + s[1..] == s;
      TypedDropped(s[1..]);
    }
  }

  /** Small instances of the pairs pinned by role-form.test.tsx:360-396: case
      is lowered, spaces and punctuation vanish... */
  lemma TypedExampleDrops()
    ensures TypedIdentifier("A b!") == "ab"
  {
  }

  /** ...while hyphens, underscores and digits stay. */
  lemma TypedExampleKeeps()
    ensures TypedIdentifier("R-_9") == "r-_9"
  {
    assert Lower("R-_9") == "r-_9";
    assert IsIdentifier("r-_9");
    KeepAll("r-_9", IsIdentifierChar);
  }

  /** Leading whitespace goes, an inner space becomes a hyphen (role-form.tsx:25-29). */
  lemma GeneratedExample()
    ensures GeneratedIdentifier(" A b") == "a-b"
  {
    TrimExample();
    LowerExample();
    HyphenateExample();
    StripExample();
  }

  /** A name made of one punctuation mark generates the empty identifier. */
  lemma PunctuationExample()
    ensures GeneratedIdentifier("!") == ""
  {
    assert !IsWhitespace("!"[0]);
    TrimNoOuterWhitespace("!");
    assert Lower("!") == "!";
    HyphenateNoWhitespace("!");
    assert StripInvalid("!") == "";
    assert GeneratedIdentifier("!") == StripInvalid(HyphenateWhitespace(Lower(Trim("!"))));
  }

  /** The trim step of the example. */
  lemma TrimExample()
    ensures Trim(" A b") == "A b"
  {
    assert " "[0] == ' ';
    assert "A b"[0] == 'A' && "A b"[2] == 'b';
    TrimPadded(" ", "A b", "");
    assert " " + "A b" + "" == " A b";
  }

  /** The lowering step of the example. */
  lemma LowerExample()
    ensures Lower("A b") == "a b"
  {
  }

  /** The strip step of the example. */
  lemma StripExample()
    ensures StripInvalid("a-b") == "a-b"
  {
    KeepAll("a-b", IsIdentifierChar);
  }

  /** The hyphenation step of the example. */
  lemma HyphenateExample()
    ensures HyphenateWhitespace("a b") == "a-b"
  {
    HyphenateNoWhitespace("b");
    HyphenateRun("a", " ", "b");
    assert "a" + " " + "b" == "a b";
  }

  /** The title of the role form: "Edit Role" exactly when the default values
      carry a non-empty id (role-form.tsx:68). */
  function FormTitle(id: Option<string>): (title: string)
    ensures title == "Edit Role" <==> id.Some? && id.value != []
    ensures title == "Edit Role" || title == "New Role"
  {
    if id.Some? && id.value != [] then "Edit Role" else "New Role"
  }

  /** The identifier and name fields of the role form, with the flag that keeps
      the identifier generated from the name until it is edited by hand. */
  class RoleFormFields {
    var name: string
    var identifier: string
    var isAutoGenerating: bool

    /** While generation is on and the name is non-empty, the identifier is the
        one generated from the name. */
    predicate Synced()
      reads this
    {
      isAutoGenerating && name != [] ==> identifier == GeneratedIdentifier(name)
    }

    /** Mounting the fields with the form's default values: the generation effect
        runs once with the flag on, so a non-empty default name replaces the
        default identifier. */
    constructor (defaultName: string, defaultIdentifier: string)
      ensures Synced()
      ensures name == defaultName && isAutoGenerating
      ensures identifier == if defaultName != [] then GeneratedIdentifier(defaultName) else defaultIdentifier
    {
      name := defaultName;
      isAutoGenerating := true;
      identifier := defaultIdentifier;
      if defaultName != [] {
        identifier := GeneratedIdentifier(defaultName);
      }
    }

    /** The name field changes; the identifier follows it only while generating. */
    method ChangeName(newName: string)
      requires Synced()
      modifies this
      ensures Synced()
      ensures name == newName && isAutoGenerating == old(isAutoGenerating)
      ensures identifier == if isAutoGenerating && newName != [] then GeneratedIdentifier(newName) else old(identifier)
    {
      name := newName;
      if isAutoGenerating && newName != [] {
        identifier := GeneratedIdentifier(newName);
      }
    }

    /** A manual edit of the identifier: generation stops for good and the typed
        value is filtered (role-form.tsx:35-48). */
    method ChangeIdentifier(raw: string)
      requires Synced()
      modifies this
      ensures Synced()
      ensures !isAutoGenerating && name == old(name)
      ensures identifier == TypedIdentifier(raw) && IsIdentifier(identifier)
    {
      isAutoGenerating := false;
      identifier := TypedIdentifier(raw);
    }

    /** A manual edit as the handlers run: the input's merged handler
        (form-input.tsx:58-64) hands the event to React Hook Form first, which
        stores the text as typed; only then does `handleIdentifierChange`
        (role-form.tsx:35-48) stop generation and rewrite the input's value. */
    method ChangeIdentifierAsWritten(raw: string)
      requires Synced()
      modifies this
      ensures Synced()
      ensures !isAutoGenerating && name == old(name)
      ensures identifier == raw
    {
      identifier := raw;
      isAutoGenerating := false;
    }
  }

  /** The stored text agrees with the filtered one exactly when the typed text
      is already an identifier. */
  lemma AsWrittenAgreesIffValid(raw: string)
    ensures TypedIdentifier(raw) == raw <==> IsIdentifier(raw)
  {
    if IsIdentifier(raw) {
      IdentifierUnchanged(raw);
    }
  }

  /** Typing 'A b!' as written stores 'A b!', which is not an identifier, where
      the filter gives 'ab'. */
  method AsWrittenStoresRawText() returns (stored: string)
    ensures stored == "A b!" && !IsIdentifier(stored)
    ensures TypedIdentifier("A b!") == "ab"
  {
    var fields := new RoleFormFields("", "");
    fields.ChangeIdentifierAsWritten("A b!");
    stored := fields.identifier;
    assert !IsIdentifierChar(stored[0]);
    TypedExampleDrops();
  }

  /** A name change after a manual edit never touches the identifier. */
  method ManualEditSticks(name: string, raw: string, newName: string)
    returns (identifier: string, generating: bool)
    ensures identifier == TypedIdentifier(raw) && !generating
  {
    var fields := new RoleFormFields(name, []);
    fields.ChangeIdentifier(raw);
    fields.ChangeName(newName);
    identifier, generating := fields.identifier, fields.isAutoGenerating;
  }
}
