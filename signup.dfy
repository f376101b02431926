/** The sign-up form's password rules: five requirements checked as the user
    types, the list of those still unmet, and when the form may be
    submitted. */
module Signup {
  import opened Base
  import opened Seqs
  import Register

  datatype Requirement = Length | Upper | Lower | Number | Special

  /** The requirements in the order the form lists them. */
  const Requirements: seq<Requirement> := [Length, Upper, Lower, Number, Special]

  /** The code points a regular expression's `.` does not match. */
  predicate IsLineTerminator(c: char) {
    c == '\n' || c == '\r' || c as int == 0x2028 || c as int == 0x2029
  }

  predicate IsUpper(c: char) { 'A' <= c <= 'Z' }
  predicate IsLower(c: char) { 'a' <= c <= 'z' }
  predicate IsDigit(c: char) { '0' <= c <= '9' }

  /** Eight characters from `i` on, none a line terminator. */
  predicate LineFreeRun(password: string, i: int)
    requires 0 <= i <= |password| - 8
  {
    forall k | i <= k < i + 8 :: !IsLineTerminator(password[k])
  }

  /** Whether the requirement's regular expression finds a match in the
      password: `.{8,}`, `[A-Z]`, `[a-z]`, `[0-9]`, `[^A-Za-z0-9]`. */
  predicate Meets(r: Requirement, password: string)
    ensures Meets(r, password) && r == Length ==> |password| >= Register.MinPasswordLength
  {
    match r
    case Length => exists i | 0 <= i <= |password| - 8 :: LineFreeRun(password, i)
    case Upper => exists k | 0 <= k < |password| :: IsUpper(password[k])
    case Lower => exists k | 0 <= k < |password| :: IsLower(password[k])
    case Number => exists k | 0 <= k < |password| :: IsDigit(password[k])
    case Special => exists k | 0 <= k < |password| :: !IsUpper(password[k]) && !IsLower(password[k]) && !IsDigit(password[k])
  }

  function Unmet(password: string): (u: seq<Requirement>)
    ensures forall r: Requirement :: r in u <==> !Meets(r, password)
  {
    FilterRequirements((r: Requirement) => !Meets(r, password));
    Filter(Requirements, (r: Requirement) => !Meets(r, password))
  }

  /** Filtering the full list keeps exactly the requirements that pass. */
  lemma FilterRequirements(p: Requirement -> bool)
    ensures forall r: Requirement :: r in Filter(Requirements, p) <==> p(r)
  {
    forall r: Requirement
      ensures r in Filter(Requirements, p) <==> p(r)
    {
      EveryRequirementListed(r);
    }
  }

  predicate IsPasswordValid(password: string)
    ensures IsPasswordValid(password) ==> |password| >= Register.MinPasswordLength
  {
    |Unmet(password)| == 0
  }

  /** The submit handler sends the form only when every field is filled in
      and the password is valid. */
  predicate ShouldSubmit(name: string, email: string, password: string) {
    Present(name) && Present(email) && Present(password) && IsPasswordValid(password)
  }

  /** The button is disabled while a request is pending, and once the
      password field has been touched while the password is invalid. */
  predicate SubmitDisabled(isLoading: bool, touchedPassword: bool, password: string) {
    isLoading || (touchedPassword && !IsPasswordValid(password))
  }

  // ---- properties of the form ----

  lemma EveryRequirementListed(r: Requirement)
    ensures r in Requirements
  {
  }

  /** The password is valid exactly when it meets all five requirements. */
  lemma ValidIffAllMet(password: string)
    ensures IsPasswordValid(password) <==> forall r: Requirement :: Meets(r, password)
  {
    if IsPasswordValid(password) {
      forall r: Requirement
        ensures Meets(r, password)
      {
        EveryRequirementListed(r);
        var k :| 0 <= k < |Requirements| && Requirements[k] == r;
      }
    } else {
      var u := Unmet(password);
      assert !Meets(u[0], password);
    }
  }

  /** The unmet requirements are listed in the form's order, each once. */
  lemma UnmetInOrder(password: string)
    ensures IsSubsequence(Unmet(password), Requirements)
  {
    FilterIsSubsequence(Requirements, (r: Requirement) => !Meets(r, password));
  }

  /** A password the form accepts also passes the server's length check. */
  lemma ValidPassesServer(password: string)
    requires IsPasswordValid(password)
    ensures Present(password) && |password| >= Register.MinPasswordLength
  {
    ValidIffAllMet(password);
    assert Meets(Length, password);
  }

  /** The server is laxer than the form: eight lower-case letters pass the
      server's check but not the form's. */
  lemma ServerLaxerThanForm()
    ensures |"abcdefgh"| >= Register.MinPasswordLength
    ensures !IsPasswordValid("abcdefgh")
  {
    var p := "abcdefgh";
    assert !Meets(Upper, p) by {
      forall k | 0 <= k < |p|
        ensures !IsUpper(p[k])
      {
      }
    }
    assert Upper in Unmet(p);
  }

  /** A password of eight characters with a line break inside meets the
      other four rules yet fails the length rule. */
  lemma LineBreakBreaksLength()
    ensures !Meets(Length, "Ab1!\nxyz")
    ensures Meets(Upper, "Ab1!\nxyz") && Meets(Lower, "Ab1!\nxyz")
    ensures Meets(Number, "Ab1!\nxyz") && Meets(Special, "Ab1!\nxyz")
  {
    var p := "Ab1!\nxyz";
    assert IsLineTerminator(p[4]);
    assert IsUpper(p[0]) && IsLower(p[1]) && IsDigit(p[2]);
    assert !IsUpper(p[3]) && !IsLower(p[3]) && !IsDigit(p[3]);
  }

  /** A valid password that is not pending enables the button and submits. */
  lemma ValidFormSubmits(name: string, email: string, password: string, touchedPassword: bool)
    requires Present(name) && Present(email)
    requires forall r: Requirement :: Meets(r, password)
    ensures ShouldSubmit(name, email, password)
    ensures !SubmitDisabled(false, touchedPassword, password)
  {
    ValidIffAllMet(password);
    assert Meets(Length, password);
  }
}
