/** Client addresses, compared as the strings they are printed as. */
module Addresses {
  datatype Ip = Ip(text: string)
}
