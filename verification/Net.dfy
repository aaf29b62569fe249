/** Addresses as values. */
module Net {
  datatype IpAddr = V4(bits: nat) | V6(bits: nat)
}
