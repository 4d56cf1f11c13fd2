/**
 * The `fg_version` check plugin: compares the firmware version found in the
 * parsed configuration with the wanted one and answers a one-entry dict from
 * a description to a verdict.
 */
module FgVersion {
  import opened Support
  import opened Json

  const Prefix := "Software Version is "

  /** The wanted version, `data['parameters']['fw_version']`, when it is a string. */
  function Wanted(data: Json): Option<string> {
    var parameters := if data.JObj? then Get(data.fields, "parameters") else None;
    var wanted := if parameters.Some? && parameters.value.JObj? then Get(parameters.value.fields, "fw_version") else None;
    if wanted.Some? && wanted.value.JStr? then Some(wanted.value.s) else None
  }

  /** The installed version, `data['fgt_cli_configuration']['fw_version']`, when both lookups succeed. */
  function Installed(data: Json): Option<Json> {
    var conf := if data.JObj? then Get(data.fields, "fgt_cli_configuration") else None;
    if conf.Some? && conf.value.JObj? then Get(conf.value.fields, "fw_version") else None
  }

  /** The description, built before the `try`: its exception escapes `check`. */
  function Description(data: Json): (r: Outcome<string>)
    ensures r.Ok? <==> Wanted(data).Some?
    ensures r.Ok? ==> r.value == Prefix + Wanted(data).value
  {
    var parameters :- Index(data, "parameters");
    var wanted :- Index(parameters, "fw_version");
    ConcatStr(Prefix, wanted)
  }

  /** The body of the `try`: look both versions up again and compare them. */
  function Compare(data: Json, description: string): Outcome<seq<(string, bool)>> {
    var conf :- Index(data, "fgt_cli_configuration");
    var installed :- Index(conf, "fw_version");
    var parameters :- Index(data, "parameters");
    var wanted :- Index(parameters, "fw_version");
    if installed == wanted then Ok([(description, true)])
    else Ok([(description + " (" + PyStr(installed) + ")", false)])
  }

  /**
   * `check(data)`, given the decoded input. A missing or non-string wanted
   * version raises; otherwise the answer has exactly one entry, true exactly
   * when the installed version equals the wanted one, whose key names the
   * installed version when the two differ.
   */
  function Check(data: Json): (r: Outcome<seq<(string, bool)>>)
    ensures r.Raised? <==> Wanted(data).None?
    ensures r.Ok? ==> |r.value| == 1
    ensures r.Ok? ==> (r.value[0].1 <==> Installed(data) == Some(JStr(Wanted(data).value)))
    ensures r.Ok? && Installed(data).None? ==> r.value[0] == (Prefix + Wanted(data).value, false)
    ensures r.Ok? && Installed(data).Some? && Installed(data) != Some(JStr(Wanted(data).value)) ==>
      r.value[0] == (Prefix + Wanted(data).value + " (" + PyStr(Installed(data).value) + ")", false)
  {
    var description :- Description(data);
    match Compare(data, description)
    case Ok(answer) => Ok(answer)
    case Raised(_) => Ok([(description, false)])
  }
}
