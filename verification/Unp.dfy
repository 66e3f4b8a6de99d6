/** Constants of the header that all the programs include. */
module Unp {
  /** The size of a line buffer. */
  const MAXLINE: nat := 4096

  /** Address families, as BSD systems number them. */
  const AF_INET: int := 2
  const AF_INET6: int := 28
}
