/** `FileManager.saveReadme`: writing the README into the workspace, asking first when
    one already exists. The workspace is a map from file name to content. */
module Persistence {
  import opened Outcomes
  import opened Text

  type Files = map<string, string>

  const ReadmeName: string := "README.md"
  const Cancelled: string := "Operation cancelled by user"

  /** The answer to the "README.md already exists" dialog; `Dismissed` is closing it. */
  datatype Decision = Overwrite | Backup | Cancel | Dismissed

  /** `timestamp.replace(/[:.]/g, '-')`: each `:` and `.` becomes `-`, so none is left,
      and every other character stays where it was. */
  function SanitizeTimestamp(timestamp: string): (r: string)
    ensures |r| == |timestamp| && ':' !in r && '.' !in r
    ensures forall k :: 0 <= k < |r| && timestamp[k] != ':' && timestamp[k] != '.' ==> r[k] == timestamp[k]
    ensures forall k :: 0 <= k < |r| && (timestamp[k] == ':' || timestamp[k] == '.') ==> r[k] == '-'
  {
    var r := ReplaceChars(timestamp, {':', '.'}, '-');
    assert forall k :: 0 <= k < |r| ==> r[k] != ':' && r[k] != '.';
    r
  }

  /** `README.backup.<timestamp>.md`. */
  function BackupName(timestamp: string): string {
    "README.backup." + SanitizeTimestamp(timestamp) + ".md"
  }

  /** A backup never lands on the README itself. */
  lemma BackupNameDiffers(timestamp: string)
    ensures BackupName(timestamp) != ReadmeName
  {
    assert |BackupName(timestamp)| >= 17;
  }

  /** `saveReadme(content, workspace)`: the files afterwards and the README's name, or
      the cancellation error. The decision is only asked for when a README exists. */
  function SaveReadme(files: Files, content: string, decision: Decision, timestamp: string): (r: Result<(Files, string), string>)
    ensures r.Ok? ==> r.value.1 == ReadmeName && ReadmeName in r.value.0 && r.value.0[ReadmeName] == content
    ensures r.Err? <==> ReadmeName in files && decision in {Cancel, Dismissed}
    ensures r.Err? ==> r.error == Cancelled
  {
    if ReadmeName !in files then Ok((files[ReadmeName := content], ReadmeName))
    else if decision == Cancel || decision == Dismissed then Err(Cancelled)
    else if decision == Backup then
      Ok((files[BackupName(timestamp) := files[ReadmeName]][ReadmeName := content], ReadmeName))
    else Ok((files[ReadmeName := content], ReadmeName))
  }

  /** With no README yet, only the README is written, whatever the decision would be. */
  lemma SaveFresh(files: Files, content: string, decision: Decision, timestamp: string)
    requires ReadmeName !in files
    ensures SaveReadme(files, content, decision, timestamp).Ok?
    ensures var after := SaveReadme(files, content, decision, timestamp).value.0;
      after.Keys == files.Keys + {ReadmeName}
      && forall p :: p in files ==> after[p] == files[p]
  {
  }

  /** Overwriting changes the README's content and nothing else. */
  lemma SaveOverwrite(files: Files, content: string, timestamp: string)
    requires ReadmeName in files
    ensures SaveReadme(files, content, Overwrite, timestamp).Ok?
    ensures var after := SaveReadme(files, content, Overwrite, timestamp).value.0;
      after.Keys == files.Keys
      && forall p :: p in files && p != ReadmeName ==> after[p] == files[p]
  {
  }

  /** Backing up keeps the old README's content under the backup name, then writes the
      README; every other file is untouched. */
  lemma SaveWithBackup(files: Files, content: string, timestamp: string)
    requires ReadmeName in files
    ensures SaveReadme(files, content, Backup, timestamp).Ok?
    ensures var after := SaveReadme(files, content, Backup, timestamp).value.0;
      && after.Keys == files.Keys + {BackupName(timestamp)}
      && after[BackupName(timestamp)] == files[ReadmeName]
      && forall p :: p in files && p != ReadmeName && p != BackupName(timestamp) ==> after[p] == files[p]
  {
    BackupNameDiffers(timestamp);
  }

  /** Whatever happens, no file other than the README and the backup changes, and the
      old README content survives unless the user chose to overwrite it. */
  lemma SaveKeepsOthers(files: Files, content: string, decision: Decision, timestamp: string)
    ensures var r := SaveReadme(files, content, decision, timestamp);
      r.Ok? ==>
        && (forall p :: p in files && p != ReadmeName && p != BackupName(timestamp) ==>
              p in r.value.0 && r.value.0[p] == files[p])
        && (forall p :: p in r.value.0 && p != ReadmeName && p != BackupName(timestamp) ==> p in files)
        && (ReadmeName in files && decision != Overwrite ==>
              r.value.0[BackupName(timestamp)] == files[ReadmeName])
  {
    BackupNameDiffers(timestamp);
  }
}
