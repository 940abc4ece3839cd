/** The stripped line contents that delimit and identify datasets in a universal file. */
module UniversalFile {
  /** The line that opens and closes every dataset. */
  const Sentinel: string := "-1"
  /** Dataset 58: function at nodal degree of freedom. */
  const FunctionDataset: string := "58"
  /** Dataset 151: the file header. */
  const HeaderDataset: string := "151"
}
