/** The server status-code decoder `codeToLog`: a raw server message is mapped
    to a record of three flags by exact, case-sensitive equality against three
    literals. A flag the decoder does not set stays JavaScript `undefined`. */
module ServerCodes {

  /** A flag of the decoded record: `undefined` or `true`; the decoder never
      produces `false`. */
  datatype Flag = Unset | Set

  /** The object `{ isAuthError, isAuthSuccess, isDeployCompleted }`. */
  datatype CodeLog = CodeLog(isAuthError: Flag, isAuthSuccess: Flag, isDeployCompleted: Flag)

  const NoFlags: CodeLog := CodeLog(Unset, Unset, Unset)

  /** The three codes the decoder recognises. */
  datatype ServerCode = IncorrectToken | CorrectToken | DeployCompleted

  /** The wire text of each recognised code. */
  function Wire(c: ServerCode): string {
    match c
    case IncorrectToken => "incorrect-token"
    case CorrectToken => "correct-token"
    case DeployCompleted => "deploy-completed"
  }

  /** The flag of the record that belongs to code `c`. */
  function FlagOf(log: CodeLog, c: ServerCode): Flag {
    match c
    case IncorrectToken => log.isAuthError
    case CorrectToken => log.isAuthSuccess
    case DeployCompleted => log.isDeployCompleted
  }

  /** How many of the three flags are set. */
  function SetCount(log: CodeLog): nat {
    (if log.isAuthError == Set then 1 else 0)
    + (if log.isAuthSuccess == Set then 1 else 0)
    + (if log.isDeployCompleted == Set then 1 else 0)
  }

  /** `codeToLog(code)`: total, at most one flag set. */
  function CodeToLog(code: string): (r: CodeLog)
    ensures SetCount(r) <= 1
  {
    match code
    case "incorrect-token" => CodeLog(Set, Unset, Unset)
    case "correct-token" => CodeLog(Unset, Set, Unset)
    case "deploy-completed" => CodeLog(Unset, Unset, Set)
    case _ => NoFlags
  }

  /** Distinct codes have distinct wire texts. */
  lemma WireInjective(a: ServerCode, b: ServerCode)
    ensures Wire(a) == Wire(b) <==> a == b
  {
    if a != b {
      assert |Wire(a)| != |Wire(b)|;
    }
  }

  /** The flag of code `c` is set exactly when the message is `c`'s wire text,
      whatever the message. */
  lemma FlagSetIffWire(code: string, c: ServerCode)
    ensures FlagOf(CodeToLog(code), c) == Set <==> code == Wire(c)
  {
  }

  /** Mutual exclusion: no message sets the flags of two different codes. */
  lemma AtMostOneFlag(code: string, c: ServerCode, d: ServerCode)
    requires FlagOf(CodeToLog(code), c) == Set && FlagOf(CodeToLog(code), d) == Set
    ensures c == d
  {
    FlagSetIffWire(code, c);
    FlagSetIffWire(code, d);
    WireInjective(c, d);
  }

  /** Decoding a recognised code sets its own flag and leaves the other two
      unset. */
  lemma DecodeWire(c: ServerCode)
    ensures FlagOf(CodeToLog(Wire(c)), c) == Set
    ensures forall d :: d != c ==> FlagOf(CodeToLog(Wire(c)), d) == Unset
  {
    forall d | d != c
      ensures FlagOf(CodeToLog(Wire(c)), d) == Unset
    {
      WireInjective(c, d);
      FlagSetIffWire(Wire(c), d);
    }
  }

  /** Any message that is not one of the three wire texts sets no flag. */
  lemma UnknownSetsNothing(code: string)
    requires forall c :: code != Wire(c)
    ensures CodeToLog(code) == NoFlags
  {
    assert code != Wire(IncorrectToken);
    assert code != Wire(CorrectToken);
    assert code != Wire(DeployCompleted);
  }

  /** Case variants, trailing line breaks or spaces and concatenations of two
      codes are not recognised. */
  lemma NearMissesSetNothing()
    ensures CodeToLog("Correct-Token") == NoFlags
    ensures CodeToLog("CORRECT-TOKEN") == NoFlags
    ensures CodeToLog("correct-token\n") == NoFlags
    ensures CodeToLog("deploy-completed ") == NoFlags
    ensures CodeToLog(" incorrect-token") == NoFlags
    ensures CodeToLog("correct-tokendeploy-completed") == NoFlags
    ensures CodeToLog("") == NoFlags
  {
  }
}
