/** Events of the OPC UA Session Service Set (OPC 10000-4, sections 5.6.2 to 5.6.4), as logged. */
module OpcEvents {
  import opened Wrappers

  /** A timestamp text: absent, present but not ISO, or an instant. */
  datatype Stamp = Blank | Unreadable(text: string) | At(time: int)

  datatype EventKind =
    | CreateSessionRequest | CreateSessionResponse
    | ActivateSessionRequest | ActivateSessionResponse
    | ServiceFaultResponse | CloseSessionRequest
    | ReadRequest | WriteRequest | OtherEvent(name: string)

  datatype OpcEvent = OpcEvent(timestamp: Stamp, tag: string, kind: EventKind, fields: map<string, string>)
  {
    function Get(key: string): string { if key in fields then fields[key] else "" }
  }

  function AfterBar(s: string): Option<string> {
    if s == "" then None
    else if s[0] == '|' then Some(s[1..])
    else AfterBar(s[1..])
  }

  /** `prefix|name` is known by `name` alone. */
  function AppName(ev: OpcEvent): string {
    var raw := ev.Get("applicationName");
    match AfterBar(raw) case Some(name) => name case None => raw
  }

  predicate Contains(s: string, part: string) {
    part <= s || (s != "" && Contains(s[1..], part))
  }

  /** A service result that is present and not some kind of `Good`. */
  predicate Rejected(result: string) {
    result != "" && !Contains(result, "Good")
  }

  // ---- what these texts mean ----

  /** `part` stands somewhere in `s`. */
  ghost predicate StandsIn(part: string, s: string) {
    exists before, after :: s == before + part + after
  }

  lemma {:induction false} ContainsIff(s: string, part: string)
    ensures Contains(s, part) <==> StandsIn(part, s)
  {
    if part <= s {
      assert s == "" + part + s[|part|..];
    } else if s == "" {
      assert forall before: string, after: string :: |before + part + after| >= |part|;
    } else {
      ContainsIff(s[1..], part);
      if StandsIn(part, s[1..]) {
        var before, after :| s[1..] == before + part + after;
        assert s == ([s[0]] + before) + part + after;
      }
      if StandsIn(part, s) {
        var before, after :| s == before + part + after;
        assert before == "" ==> part <= s;
        assert s[1..] == before[1..] + part + after;
      }
    }
  }

  /** A result is rejected exactly when there is one and the word `Good` stands nowhere in it. */
  lemma RejectedIff(result: string)
    ensures Rejected(result) <==> result != "" && !StandsIn("Good", result)
  {
    ContainsIff(result, "Good");
  }

  /** The first bar of `s` stands between `before` and `after`. */
  ghost predicate FirstBar(s: string, before: string, after: string) {
    '|' !in before && s == before + "|" + after
  }

  lemma {:induction false} AfterBarIff(s: string)
    ensures AfterBar(s).None? <==> '|' !in s
    ensures forall before, after :: FirstBar(s, before, after) ==> AfterBar(s) == Some(after)
  {
    if s == "" {
    } else {
      AfterBarIff(s[1..]);
      forall before, after | FirstBar(s, before, after) ensures AfterBar(s) == Some(after) {
        if before == "" {
          assert s[1..] == after;
        } else {
          assert FirstBar(s[1..], before[1..], after);
        }
      }
    }
  }

  /** An application is known by what follows the first bar of the name it gives, or by the whole name. */
  lemma NameIsAfterTheBar(ev: OpcEvent)
    ensures "applicationName" !in ev.fields ==> AppName(ev) == ""
    ensures "applicationName" in ev.fields && '|' !in ev.fields["applicationName"] ==>
              AppName(ev) == ev.fields["applicationName"]
    ensures "applicationName" in ev.fields ==>
              forall before, after :: FirstBar(ev.fields["applicationName"], before, after) ==> AppName(ev) == after
  {
    AfterBarIff(ev.Get("applicationName"));
  }

  // ---- logs ----

  /** The instants at which the application asked for a session, in log order. */
  function CreateTimes(events: seq<OpcEvent>, name: string): seq<Stamp> {
    if events == [] then [] else
      var n := |events| - 1;
      CreateTimes(events[..n], name)
      + if events[n].kind.CreateSessionRequest? && AppName(events[n]) == name then [events[n].timestamp] else []
  }

  /** Every event is dated and no event is dated before an earlier one. */
  ghost predicate Chronological(events: seq<OpcEvent>) {
    && (forall i :: 0 <= i < |events| ==> events[i].timestamp.At?)
    && (forall i, j :: 0 <= i < j < |events| ==> events[i].timestamp.time <= events[j].timestamp.time)
  }
}
