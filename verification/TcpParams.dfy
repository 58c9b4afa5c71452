// The capacity constants of net/net.h.
module TcpParams {
  const BUF: nat := 4096
  const MSS: nat := 1460
}
