/** The `download` task of src/request/download_command.rs. */
module DownloadCommandRequest {
  import opened Wrappers
  import opened Accessor

  datatype DownloadCommand = DownloadCommand(name: string, file: string)

  /** `DownloadCommand::new`: the task name and the file reference, copied. */
  function New(file: string): (r: DownloadCommand)
    ensures r.name == "download"
    ensures r.file == file
  {
    DownloadCommand("download", file)
  }

  /** Different files give different tasks. */
  lemma NewInjective(a: string, b: string)
    ensures New(a) == New(b) <==> a == b
  {
  }

  /** Deserialisation with the `unset_str` default for each missing field. */
  function FromFields(name: Option<string>, file: Option<string>): (r: DownloadCommand)
    ensures name.Some? ==> r.name == name.value
    ensures name.None? ==> r.name == UnsetStr
    ensures file.Some? ==> r.file == file.value
    ensures file.None? ==> r.file == UnsetStr
  {
    DownloadCommand(
      match name case Some(n) => n case None => UnsetStr,
      match file case Some(f) => f case None => UnsetStr)
  }

  /** Every record reads back from its own fields, and a payload with both missing is `("", "")`. */
  lemma FromFieldsRoundTrip(r: DownloadCommand)
    ensures FromFields(Some(r.name), Some(r.file)) == r
    ensures FromFields(None, None) == DownloadCommand("", "")
  {
  }
}
