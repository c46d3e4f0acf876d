/**
 * One launch attempt, seen from outside the provider's SDK: the display name
 * the request carries, and how whatever the SDK did is turned into a success
 * or a `RuntimeError` message that the claim loop inspects.
 *
 * The SDK itself (building the request, `launch_instance`, waiting up to 900
 * seconds for RUNNING, listing VNIC attachments, reading the VNIC) is replaced
 * by a `LaunchOutcome` value that says how those calls ended.
 */
module Launch {
  import opened Options
  import opened Text

  // ---------------------------------------------------------------------
  // Display name
  // ---------------------------------------------------------------------

  /**
   * `f"{prefix}-ad{ad[-1]}-{ocpus}c{mem}g"`. Python's `ad[-1]` raises
   * `IndexError` on an empty name, which is `None` here.
   */
  function DisplayName(prefix: string, ad: string, ocpus: nat, memGb: int): (r: Option<string>)
    ensures r.None? <==> ad == ""
  {
    if ad == "" then None
    else Some(prefix + "-ad" + [ad[|ad| - 1]] + "-" + NatToString(ocpus) + "c" + IntToString(memGb) + "g")
  }

  /** Position of the first `c` in `s`, or `|s|` when there is none. */
  function IndexOf(s: string, c: char): (i: nat)
    ensures i <= |s|
    ensures forall k :: 0 <= k < i ==> s[k] != c
    ensures i < |s| ==> s[i] == c
  {
    if s == [] then 0 else if s[0] == c then 0 else 1 + IndexOf(s[1..], c)
  }

  /** Text `int()` reads as a signed decimal: an optional minus sign, then digits. */
  predicate IsIntText(m: string) {
    |m| > 0 && (m[0] == '-' || IsDigit(m[0])) && forall k :: 0 < k < |m| ==> IsDigit(m[k])
  }

  /**
   * Reads a display name back: the last character of the domain name, the
   * OCPU count and the memory size, provided `name` has the shape
   * `DisplayName` writes for this prefix.
   */
  function ParseDisplayName(prefix: string, name: string): Option<(char, nat, int)> {
    var head := prefix + "-ad";
    if |name| < |head| + 2 || name[..|head|] != head || name[|head| + 1] != '-' then None
    else
      var body := name[|head| + 2..];
      var i := IndexOf(body, 'c');
      if i == |body| || !IsDigits(body[..i]) then None
      else
        var tail := body[i + 1..];
        if tail == [] || tail[|tail| - 1] != 'g' || !IsIntText(tail[..|tail| - 1]) then None
        else Some((name[|head|], DigitsValue(body[..i]), ParseInt(tail[..|tail| - 1])))
  }

  /** The sizing part `<ocpus>c<mem>g` splits at its first `c` into the two numbers' texts. */
  lemma SizingSplit(n: string, m: string)
    requires IsDigits(n)
    ensures var body := n + "c" + m + "g";
      && IndexOf(body, 'c') == |n| && body[..|n|] == n && body[|n| + 1..] == m + "g"
  {
    var body := n + "c" + m + "g";
    assert body[|n|] == 'c';
    assert forall k :: 0 <= k < |n| ==> body[k] == n[k] && IsDigit(n[k]);
    assert body[..|n|] == n;
    assert body[|n| + 1..] == m + "g";
  }

  /** A name assembled in `DisplayName`'s shape from digit and integer texts parses back to its parts. */
  lemma ParseAssembled(prefix: string, c: char, n: string, m: string)
    requires IsDigits(n) && IsIntText(m)
    ensures ParseDisplayName(prefix, prefix + "-ad" + [c] + "-" + (n + "c" + m + "g"))
            == Some((c, DigitsValue(n), ParseInt(m)))
  {
    var head := prefix + "-ad";
    var body := n + "c" + m + "g";
    var name := head + [c] + "-" + body;
    assert name[..|head|] == head && name[|head|] == c && name[|head| + 1] == '-' && name[|head| + 2..] == body by {
      assert name == head + ([c] + "-" + body);
    }
    SizingSplit(n, m);
    var tail := m + "g";
    assert tail[..|tail| - 1] == m;
  }

  /** The display name carries the domain's last character and the exact sizing, which can be read back from it. */
  lemma DisplayNameRoundTrip(prefix: string, ad: string, ocpus: nat, memGb: int)
    requires ad != ""
    ensures ParseDisplayName(prefix, DisplayName(prefix, ad, ocpus, memGb).value)
            == Some((ad[|ad| - 1], ocpus, memGb))
  {
    var n := NatToString(ocpus);
    var m := IntToString(memGb);
    assert DisplayName(prefix, ad, ocpus, memGb).value == prefix + "-ad" + [ad[|ad| - 1]] + "-" + (n + "c" + m + "g");
    ParseAssembled(prefix, ad[|ad| - 1], n, m);
    NatToStringValue(ocpus);
    IntToStringValue(memGb);
  }

  // ---------------------------------------------------------------------
  // Classifying a failed launch
  // ---------------------------------------------------------------------

  /** What the SDK raised inside the guarded part of an attempt. */
  datatype Failure =
    | ServiceError(status: int, code: Option<string>, message: Option<string>)
    | OtherException(typeName: string, text: string)

  /** The message a capacity shortage is reported with. */
  const CapacityVerdict: string := "CAPACITY"

  /** The words that mark a provider message as a capacity shortage. */
  const CapacityKeywords: seq<string> := ["capacity", "outofhostcapacity", "out of capacity", "insufficient"]

  /** The lower-cased message (absent read as "") contains one of the capacity words. */
  predicate MentionsCapacity(message: Option<string>) {
    var msg := Lower(message.GetOr(""));
    exists k | k in CapacityKeywords :: Contains(msg, k)
  }

  /** The capacity words are matched ignoring ASCII case in the provider's message. */
  lemma MentionsCapacityIgnoringCase(message: Option<string>)
    ensures MentionsCapacity(message) <==>
      exists k | k in CapacityKeywords :: ContainsIgnoringCase(message.GetOr(""), k)
  {
    var msg := message.GetOr("");
    forall k | k in CapacityKeywords
      ensures Contains(Lower(msg), k) <==> ContainsIgnoringCase(msg, k)
    {
      ContainsLower(msg, k);
    }
  }

  predicate HasPrefix(s: string, p: string) {
    |p| <= |s| && s[..|p|] == p
  }

  /**
   * The message of the `RuntimeError` that an attempt raises for a failure:
   * "CAPACITY" for a provider error that mentions capacity, "API:<status>
   * <code> <message>" for any other provider error, "EX:<type>: <text>" for
   * anything else.
   */
  function Classify(f: Failure): (verdict: string)
    ensures verdict == CapacityVerdict <==> f.ServiceError? && MentionsCapacity(f.message)
    ensures f.ServiceError? && !MentionsCapacity(f.message) ==> HasPrefix(verdict, "API:")
    ensures f.OtherException? ==> HasPrefix(verdict, "EX:") && verdict[3..] == f.typeName + ": " + f.text
  {
    match f
    case ServiceError(status, code, message) =>
      if MentionsCapacity(message) then CapacityVerdict
      else
        var v := "API:" + IntToString(status) + " " + PyStr(code) + " " + PyStr(message);
        assert v[0] != CapacityVerdict[0];
        v
    case OtherException(t, x) =>
      var v := "EX:" + t + ": " + x;
      assert v[0] != CapacityVerdict[0];
      assert v[3..] == t + ": " + x;
      v
  }

  /**
   * Two of the four words contain a third: testing for "capacity" or
   * "insufficient" decides exactly the same messages as the full list.
   */
  lemma {:induction false} CapacityKeywordsReduce(message: Option<string>)
    ensures var msg := Lower(message.GetOr(""));
      MentionsCapacity(message) <==> Contains(msg, "capacity") || Contains(msg, "insufficient")
  {
    var msg := Lower(message.GetOr(""));
    assert "capacity" in CapacityKeywords && "insufficient" in CapacityKeywords;
    if Contains(msg, "outofhostcapacity") {
      assert OccursAt("outofhostcapacity", "capacity", 9);
      ContainsTransitive(msg, "outofhostcapacity", "capacity");
    }
    if Contains(msg, "out of capacity") {
      assert OccursAt("out of capacity", "capacity", 7);
      ContainsTransitive(msg, "out of capacity", "capacity");
    }
  }

  // ---------------------------------------------------------------------
  // One attempt
  // ---------------------------------------------------------------------

  /** How the side effects of one attempt ended. */
  datatype LaunchOutcome =
      /** Reading the SSH public key raised (this happens before the guarded block). */
    | KeyUnreadable(typeName: string, text: string)
      /** The instance reached RUNNING; the public IP of the VNIC behind each attachment, in listing order. */
    | Running(instanceId: string, vnicPublicIps: seq<Option<string>>)
      /** A call inside the guarded block raised (launch, the wait for RUNNING, the VNIC lookups). */
    | Raised(failure: Failure)

  /** What `try_launch` hands back to the loop. */
  datatype AttemptResult =
      /** It returned the instance id and the public IP as text. */
    | Launched(instanceId: string, publicIp: string)
      /** It raised `RuntimeError` with this message. */
    | RuntimeFailure(message: string)
      /** Another exception escaped it. */
    | Unexpected(typeName: string, text: string)

  /** The error raised when a running instance has no VNIC attachment. */
  const NoVnicText: string := "未找到 VNIC 附着"

  /** `try_launch` for the domain `ad` and the given sizing, with the SDK's behaviour given by `outcome`. */
  function TryLaunch(prefix: string, ad: string, ocpus: nat, memGb: int, outcome: LaunchOutcome): (r: AttemptResult)
    ensures r.Launched? <==> ad != "" && outcome.Running? && outcome.vnicPublicIps != []
    ensures r.Launched? ==>
      r.instanceId == outcome.instanceId && r.publicIp == PyStr(outcome.vnicPublicIps[0])
    ensures r.Unexpected? <==> outcome.KeyUnreadable? || ad == ""
    ensures r == RuntimeFailure(CapacityVerdict) <==>
      ad != "" && outcome.Raised? && outcome.failure.ServiceError? && MentionsCapacity(outcome.failure.message)
  {
    if outcome.KeyUnreadable? then Unexpected(outcome.typeName, outcome.text)
    else if DisplayName(prefix, ad, ocpus, memGb).None? then Unexpected("IndexError", "string index out of range")
    else if outcome.Raised? then RuntimeFailure(Classify(outcome.failure))
    else if outcome.vnicPublicIps == [] then RuntimeFailure(Classify(OtherException("RuntimeError", NoVnicText)))
    else Launched(outcome.instanceId, PyStr(outcome.vnicPublicIps[0]))
  }
}
