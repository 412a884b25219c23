/**
 * The field checks of validateRequiredFields in the calculator front end.
 *
 * The form is a map from field name to the text in that field; a field that
 * is not on the form has no entry (jQuery's val() gives undefined for it).
 * parseFloat is a parameter: it gives None where JavaScript gives NaN.
 */
module FieldValidation {

  import opened Wrappers

  /** The fields that must not be blank, in the order they are checked. */
  const RequiredFields: seq<string> :=
    ["user_name", "user_email", "initial_investment", "monthly_revenue", "monthly_costs", "growth_rate"]

  /** The fields that must hold a non-negative number, in the order they are checked. */
  const NumericFields: seq<string> :=
    ["initial_investment", "monthly_revenue", "monthly_costs", "growth_rate"]

  /**
   * The white space of JavaScript's \s and String.prototype.trim: the
   * WhiteSpace characters (tab, vertical tab, form feed, no-break space,
   * byte order mark and the space separators) and the line terminators.
   */
  predicate IsSpace(c: char)
  {
    var n := c as int;
    n == 0x09 || n == 0x0A || n == 0x0B || n == 0x0C || n == 0x0D || n == 0x20
    || n == 0xA0 || n == 0x1680 || (0x2000 <= n <= 0x200A) || n == 0x2028 || n == 0x2029
    || n == 0x202F || n == 0x205F || n == 0x3000 || n == 0xFEFF
  }

  predicate AllSpace(s: string)
  {
    forall k :: 0 <= k < |s| ==> IsSpace(s[k])
  }

  function TrimStart(s: string): string
  {
    if s != [] && IsSpace(s[0]) then TrimStart(s[1..]) else s
  }

  function TrimEnd(s: string): string
  {
    if s != [] && IsSpace(s[|s| - 1]) then TrimEnd(s[..|s| - 1]) else s
  }

  /** String.prototype.trim. */
  function Trim(s: string): string
  {
    TrimEnd(TrimStart(s))
  }

  lemma {:induction false} TrimStartEmpty(s: string)
    ensures TrimStart(s) == "" <==> AllSpace(s)
  {
    if s != [] && IsSpace(s[0]) {
      TrimStartEmpty(s[1..]);
      assert AllSpace(s) <==> AllSpace(s[1..]) by {
        if AllSpace(s[1..]) {
          forall k | 0 <= k < |s| ensures IsSpace(s[k]) {
            if k > 0 { assert s[k] == s[1..][k - 1]; }
          }
        }
      }
    }
  }

  lemma {:induction false} TrimEndEmpty(s: string)
    requires s == [] || !IsSpace(s[0])
    ensures TrimEnd(s) == "" <==> s == []
  {
    if s != [] && IsSpace(s[|s| - 1]) {
      assert |s| > 1;
      TrimEndEmpty(s[..|s| - 1]);
    }
  }

  /** trim() leaves nothing exactly when every character is white space. */
  lemma {:induction false} TrimEmptyIffAllSpace(s: string)
    ensures Trim(s) == "" <==> AllSpace(s)
  {
    TrimStartEmpty(s);
    TrimStartFirst(s);
    TrimEndEmpty(TrimStart(s));
  }

  lemma {:induction false} TrimStartFirst(s: string)
    ensures TrimStart(s) == [] || !IsSpace(TrimStart(s)[0])
  {
    if s != [] && IsSpace(s[0]) {
      TrimStartFirst(s[1..]);
    }
  }

  /** `!value || value.trim() === ''` for the value of the named field. */
  predicate Blank(fields: map<string, string>, name: string)
  {
    name !in fields || fields[name] == "" || Trim(fields[name]) == ""
  }

  /** A field is blank when it is missing, empty or nothing but white space. */
  lemma {:induction false} BlankMeansMissingOrSpace(fields: map<string, string>, name: string)
    ensures Blank(fields, name) <==> name !in fields || AllSpace(fields[name])
  {
    if name in fields {
      TrimEmptyIffAllSpace(fields[name]);
    }
  }

  // ---------------------------------------------------------------------
  // The e-mail pattern
  // ---------------------------------------------------------------------

  /** [^\s@]+ */
  predicate EmailWord(t: string)
  {
    |t| > 0 && forall k :: 0 <= k < |t| ==> !IsSpace(t[k]) && t[k] != '@'
  }

  /** /^[^\s@]+@[^\s@]+\.[^\s@]+$/.test(s): the two separators may sit at any a < b that fit. */
  predicate EmailPattern(s: string)
  {
    exists a, b :: 0 <= a < b < |s| && s[a] == '@' && s[b] == '.'
      && EmailWord(s[..a]) && EmailWord(s[a + 1..b]) && EmailWord(s[b + 1..])
  }

  /**
   * The same strings described without the pattern: no white space, exactly
   * one '@' and not at the front, and after it a '.' that is neither right
   * after the '@' nor the last character.
   */
  predicate EmailShape(s: string)
  {
    && (forall k :: 0 <= k < |s| ==> !IsSpace(s[k]))
    && exists a :: 0 < a < |s| && s[a] == '@'
         && (forall k :: 0 <= k < |s| && k != a ==> s[k] != '@')
         && exists b :: a + 1 < b < |s| - 1 && s[b] == '.'
  }

  lemma {:induction false} EmailPatternIsShape(s: string)
    ensures EmailPattern(s) <==> EmailShape(s)
  {
    if EmailPattern(s) {
      PatternGivesShape(s);
    }
    if EmailShape(s) {
      ShapeGivesPattern(s);
    }
  }

  lemma {:induction false} PatternGivesShape(s: string)
    requires EmailPattern(s)
    ensures EmailShape(s)
  {
    var a, b :| 0 <= a < b < |s| && s[a] == '@' && s[b] == '.'
      && EmailWord(s[..a]) && EmailWord(s[a + 1..b]) && EmailWord(s[b + 1..]);
    forall k | 0 <= k < |s| && k != a && k != b
      ensures !IsSpace(s[k]) && s[k] != '@'
    {
      if k < a {
        assert s[k] == s[..a][k];
      } else if k < b {
        assert s[k] == s[a + 1..b][k - a - 1];
      } else {
        assert s[k] == s[b + 1..][k - b - 1];
      }
    }
    assert a + 1 < b < |s| - 1 && s[b] == '.';
  }

  lemma {:induction false} ShapeGivesPattern(s: string)
    requires EmailShape(s)
    ensures EmailPattern(s)
  {
    var a :| 0 < a < |s| && s[a] == '@'
       && (forall k :: 0 <= k < |s| && k != a ==> s[k] != '@')
       && exists b :: a + 1 < b < |s| - 1 && s[b] == '.';
    var b :| a + 1 < b < |s| - 1 && s[b] == '.';
    assert EmailWord(s[..a]);
    assert EmailWord(s[a + 1..b]);
    assert EmailWord(s[b + 1..]);
  }

  // ---------------------------------------------------------------------
  // validateRequiredFields
  // ---------------------------------------------------------------------

  /** `isNaN(value) || value < 0` fails the number. */
  predicate NonNegativeNumber(v: Option<real>)
  {
    v.Some? && v.value >= 0.0
  }

  /** What validateRequiredFields accepts, as one statement over all fields. */
  predicate FieldsValid(fields: map<string, string>, parseFloat: string -> Option<real>)
  {
    && (forall f :: f in RequiredFields ==> !Blank(fields, f))
    && "user_email" in fields && EmailPattern(fields["user_email"])
    && (forall f :: f in NumericFields ==> f in fields && NonNegativeNumber(parseFloat(fields[f])))
  }

  /**
   * validateRequiredFields: the required fields in turn, then the e-mail
   * pattern, then the numeric fields in turn, each failure returning false at
   * once.
   */
  method ValidateRequiredFields(fields: map<string, string>, parseFloat: string -> Option<real>)
    returns (ok: bool)
    ensures ok == FieldsValid(fields, parseFloat)
  {
    var i := 0;
    while i < |RequiredFields|
      invariant 0 <= i <= |RequiredFields|
      invariant forall j :: 0 <= j < i ==> !Blank(fields, RequiredFields[j])
    {
      var field := RequiredFields[i];
      if field !in fields || fields[field] == "" || Trim(fields[field]) == "" {
        assert field in RequiredFields && Blank(fields, field);
        return false;
      }
      i := i + 1;
    }
    assert forall f :: f in RequiredFields ==> !Blank(fields, f);
    assert RequiredFields[1] == "user_email";
    var email := fields["user_email"];
    if !EmailPattern(email) {
      return false;
    }
    assert forall j :: 0 <= j < |NumericFields| ==> NumericFields[j] == RequiredFields[j + 2];
    i := 0;
    while i < |NumericFields|
      invariant 0 <= i <= |NumericFields|
      invariant forall j :: 0 <= j < |NumericFields| ==> NumericFields[j] in fields
      invariant forall j :: 0 <= j < i ==> NonNegativeNumber(parseFloat(fields[NumericFields[j]]))
    {
      var field := NumericFields[i];
      assert field == RequiredFields[i + 2];
      var value := parseFloat(fields[field]);
      if value.None? || value.value < 0.0 {
        assert field in NumericFields && !NonNegativeNumber(parseFloat(fields[field]));
        return false;
      }
      i := i + 1;
    }
    forall f | f in NumericFields ensures f in fields && NonNegativeNumber(parseFloat(fields[f])) {
      var j :| 0 <= j < |NumericFields| && NumericFields[j] == f;
      assert f == RequiredFields[j + 2];
    }
    return true;
  }

  /** Each of the three checks, and only they, can fail validation. */
  lemma {:induction false} ValidationFailsExactly(fields: map<string, string>, parseFloat: string -> Option<real>)
    ensures !FieldsValid(fields, parseFloat) <==>
      || (exists f :: f in RequiredFields && (f !in fields || AllSpace(fields[f])))
      || ("user_email" in fields && !EmailShape(fields["user_email"]))
      || (exists f :: f in NumericFields && f in fields && !NonNegativeNumber(parseFloat(fields[f])))
  {
    forall f | f in RequiredFields ensures Blank(fields, f) <==> f !in fields || AllSpace(fields[f]) {
      BlankMeansMissingOrSpace(fields, f);
    }
    if "user_email" in fields {
      EmailPatternIsShape(fields["user_email"]);
    }
    assert "user_email" == RequiredFields[1];
    forall f | f in NumericFields ensures f in RequiredFields {
      var j :| 0 <= j < |NumericFields| && NumericFields[j] == f;
      assert f == RequiredFields[j + 2];
    }
  }

  /** A negative growth rate is rejected like any other negative number. */
  lemma {:induction false} NegativeGrowthRejected(fields: map<string, string>, parseFloat: string -> Option<real>)
    requires "growth_rate" in fields
    requires parseFloat(fields["growth_rate"]).Some? && parseFloat(fields["growth_rate"]).value < 0.0
    ensures !FieldsValid(fields, parseFloat)
  {
    assert "growth_rate" == NumericFields[3];
  }
}
