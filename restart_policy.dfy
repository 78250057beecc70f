/**
 * restart_policy.go (and its copy in main.go): the restart policy of a
 * process, an integer enumeration with a name for each of its three values.
 */
module RestartPolicies {
  newtype RestartPolicy = int

  const Always: RestartPolicy := 0
  const OnFailure: RestartPolicy := 1
  const Never: RestartPolicy := 2

  /** The lookup table behind String. */
  const RestartPolicyToString: map<RestartPolicy, string> :=
    map[Always := "Always", OnFailure := "OnFailure", Never := "Never"]

  /** The lookup table the swarm uses to read a spec's `restart` field. */
  const StringToRestartPolicy: map<string, RestartPolicy> :=
    map["Always" := Always, "OnFailure" := OnFailure, "Never" := Never]

  predicate IsKnown(r: RestartPolicy) {
    r == Always || r == OnFailure || r == Never
  }

  /** String: a missing key reads as Go's zero string. */
  function Name(r: RestartPolicy): (s: string)
    ensures s == "" <==> !IsKnown(r)
  {
    if r in RestartPolicyToString then RestartPolicyToString[r] else ""
  }

  /** A map lookup of the spec's text: a missing key reads as the zero value, Always. */
  function FromName(s: string): (r: RestartPolicy)
    ensures IsKnown(r)
    ensures s == "OnFailure" ==> r == OnFailure
    ensures s == "Never" ==> r == Never
    ensures s != "OnFailure" && s != "Never" ==> r == Always
  {
    if s in StringToRestartPolicy then StringToRestartPolicy[s] else 0
  }

  /** Reading back the name of a known policy gives the policy. */
  lemma NameRoundTrip(r: RestartPolicy)
    requires IsKnown(r)
    ensures FromName(Name(r)) == r
  {
  }

  /** A recognised text is the name of the policy it reads as. */
  lemma FromNameRoundTrip(s: string)
    requires s in StringToRestartPolicy
    ensures Name(FromName(s)) == s
  {
  }

  /** The two tables are inverse to each other. */
  lemma TablesInverse()
    ensures forall r :: r in RestartPolicyToString ==> RestartPolicyToString[r] in StringToRestartPolicy && StringToRestartPolicy[RestartPolicyToString[r]] == r
    ensures forall s :: s in StringToRestartPolicy ==> StringToRestartPolicy[s] in RestartPolicyToString && RestartPolicyToString[StringToRestartPolicy[s]] == s
  {
  }
}
