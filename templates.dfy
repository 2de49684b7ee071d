/** Text shared by the generated files: their indentation unit is four
    spaces. */
module Templates {
  /** `level` indentation steps. */
  function Indent(level: nat): (r: string)
    ensures |r| == 4 * level
  {
    if level == 0 then "" else "    " + Indent(level - 1)
  }
}
