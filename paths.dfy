/** File-system path arithmetic shared by the stages that write files. */
module Paths {

  /** `os.path.join(dir, name)` for POSIX paths and two components. */
  function JoinPath(dir: string, name: string): (r: string)
    ensures |name| > 0 && name[0] == '/' ==> r == name
    ensures |r| >= |name| && r[|r| - |name|..] == name
  {
    if |name| > 0 && name[0] == '/' then name
    else if dir == [] || dir[|dir| - 1] == '/' then dir + name
    else dir + "/" + name
  }
}
