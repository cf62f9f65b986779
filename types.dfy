/**
 * The records the project finder works with, and the error and option
 * wrappers its operations return.
 */
module Types {

  /** One entry of a directory listing, as produced during one walk step. */
  datatype ChildInfo = ChildInfo(name: string, path: string, isDir: bool)

  /**
   * A discovered project. `projectType` is the classification label (the
   * source calls this field `type`, a reserved word in Dafny). `hits` counts
   * launches; `idePath` is the remembered launcher target, "" when unset.
   */
  datatype Project = Project(
    id: string,
    name: string,
    path: string,
    projectType: string,
    hits: nat,
    idePath: string)

  /** The persisted document: launcher per project type, and the last scan. */
  datatype Config = Config(editor: map<string, string>, cache: seq<Project>)

  /** The user's preferences; only `workspace` is consumed by the core. */
  datatype Preferences = Preferences(workspace: string, ideName: string)

  /** A file the core reads without a guard could not be read or parsed. */
  datatype Fault = ReadFailed(path: string)

  datatype Option<T> = None | Some(value: T)

  datatype Result<T> = Ok(value: T) | Err(fault: Fault)
}
