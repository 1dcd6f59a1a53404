/** Display controls, which travel with frames from the display thread to the encoder. */
module Controls {
  /** A display control, told apart by its content. */
  type Ctrl = nat
}
