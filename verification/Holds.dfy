/** How a manual hold moves the light to its level and back: in one step, or at the slew rate. The
 * scheduler and the override store share this one vocabulary. */
module Holds {
  datatype Transition = Snap | Ramp
}
