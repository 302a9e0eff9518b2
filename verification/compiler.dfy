/** The compiler a run was built with. Its class is not part of this model; the fields
    are those its database mapping stores: a name, a vendor and a three-part version. */
module Compiler {
  import opened Wrappers

  datatype Compiler = Compiler(
    name: Option<string>,
    vendor: Option<string>,
    versionMajor: Option<int>,
    versionMinor: Option<int>,
    versionBuild: Option<int>)
}
