/**
  * The parts of the MSBuild project model the composers read. Parsing the project file
  * into this model is not part of the model.
  */
module MsBuild {
  import opened Common
  import opened HelpStore

  /** A property: its name, its condition, whether it can be set from outside the file, and its help. */
  datatype Property = Property(name: string, condition: string, hasPublicSetter: bool, help: Help)

  /** A target: its name, its help, its four dependency lists as declared (duplicates kept) and
    * the HasTargetDependencies flag the model library derives from them. */
  datatype Target = Target(
    name: string,
    help: Help,
    dependsOnTargets: seq<string>,
    afterTargets: seq<string>,
    beforeTargets: seq<string>,
    onErrorTargets: seq<string>,
    hasTargetDependencies: bool)

  /** The flag as the model library defines it: some depends-on, after or before edge exists. */
  predicate HasConsistentDependencyFlag(t: Target)
  {
    t.hasTargetDependencies == (t.dependsOnTargets != [] || t.afterTargets != [] || t.beforeTargets != [])
  }

  /** A project: its property and target lists, either of which may be null. */
  datatype Project = Project(properties: Option<seq<Property>>, targets: Option<seq<Target>>)

  /** What the composers read of the project file itself. */
  datatype ProjectFile = ProjectFile(fileName: string)
}
