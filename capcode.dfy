/**
 * The capcode parser (src/post/capcode.rs): a closed set of six wire tokens
 * mapped onto `Capcode`; every other string is rejected with a message that
 * names it.
 */
module Capcodes {
  import opened Wrappers
  import opened Json
  import opened Posts

  /** The tokens the API uses for staff roles. */
  const CAPCODE_TOKENS: set<string> :=
    {"mod", "admin", "admin_highlight", "manager", "developer", "founder"}

  /** What the visitor says it expects when the value is not a string at all (typo included). */
  const EXPECTED_CAPCODE: string :=
    "one of [mod, admin, admin_highlight, manager, developer,, founder]"

  /** The wire token of each role. */
  function Token(c: Capcode): (s: string)
    ensures s in CAPCODE_TOKENS
  {
    match c
    case Mod => "mod"
    case Admin => "admin"
    case AdminHighlight => "admin_highlight"
    case Manager => "manager"
    case Developer => "developer"
    case Founder => "founder"
  }

  /** The message of the custom error raised for a token outside the set. */
  function NotACapcode(s: string): string {
    s + " is not a valid capcode"
  }

  /** `CapcodeVisitor::visit_str`. */
  function ParseCapcode(s: string): (r: Decoded<Capcode>)
    ensures r.Ok? <==> s in CAPCODE_TOKENS
    ensures r.Ok? ==> Token(r.value) == s
    ensures r.Err? ==> r.error == Custom(NotACapcode(s))
  {
    match s
    case "mod" => Ok(Mod)
    case "admin" => Ok(Admin)
    case "admin_highlight" => Ok(AdminHighlight)
    case "manager" => Ok(Manager)
    case "developer" => Ok(Developer)
    case "founder" => Ok(Founder)
    case _ => Err(Custom(NotACapcode(s)))
  }

  /** `Capcode::deserialize`: only a JSON string reaches the visitor. */
  function DecodeCapcode(v: Json): (r: Decoded<Capcode>)
    ensures v.JStr? ==> r == ParseCapcode(v.s)
    ensures !v.JStr? ==> r == Err(InvalidType(EXPECTED_CAPCODE))
  {
    match v
    case JStr(s) => ParseCapcode(s)
    case _ => Err(InvalidType(EXPECTED_CAPCODE))
  }

  predicate IsCapcodeToken(v: Json) {
    v.JStr? && v.s in CAPCODE_TOKENS
  }

  /** Each role's token parses back to that role. */
  lemma ParseCapcodeToken(c: Capcode)
    ensures ParseCapcode(Token(c)) == Ok(c)
  {
  }

  /** Distinct accepted tokens give distinct roles. */
  lemma ParseCapcodeInjective(s: string, t: string)
    requires ParseCapcode(s).Ok? && ParseCapcode(t).Ok?
    requires ParseCapcode(s).value == ParseCapcode(t).value
    ensures s == t
  {
  }

  /** Every role is produced by exactly one token. */
  lemma ParseCapcodeSurjective(c: Capcode)
    ensures exists s :: ParseCapcode(s) == Ok(c)
    ensures forall s :: ParseCapcode(s) == Ok(c) ==> s == Token(c)
  {
    ParseCapcodeToken(c);
  }

  /** Near misses are rejected: a plural, another case, the empty string. */
  lemma ParseCapcodeRejectsNearMisses()
    ensures ParseCapcode("admins") == Err(Custom("admins is not a valid capcode"))
    ensures ParseCapcode("Mod").Err?
    ensures ParseCapcode("").Err?
  {
    assert NotACapcode("admins") == "admins is not a valid capcode";
  }

  /** The rejection message starts with the offending token. */
  lemma RejectionNamesToken(s: string)
    requires s !in CAPCODE_TOKENS
    ensures ParseCapcode(s).Err? && ParseCapcode(s).error.Custom?
    ensures ParseCapcode(s).error.message[..|s|] == s
  {
  }
}
