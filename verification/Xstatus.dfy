/** The boot loader's return codes, XST_SUCCESS and XST_FAILURE. */
module Xstatus {
  datatype Status = Success | Failure
}
