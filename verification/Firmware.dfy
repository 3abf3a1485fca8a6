/** The finger bit of the controller's frame status. */
module Firmware {
  datatype Finger = Unknown | Absent | Present
}
