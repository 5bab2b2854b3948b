/** The earlier HTTP server's set-up (internal/http-server/http-server.go):
    Init validates the address, then the port, and only then records them
    with the storage and a fresh router. `net.ParseIP` is a parameter
    (`parseIP`); registering handlers and serving are not part of the model. */
module HTTPServerInit {
  import opened Wrappers
  import opened GoLib

  const MaxPort: nat := 65535

  /** isValidIP: what net.ParseIP accepts, and "localhost". */
  function IsValidIP(address: string, parseIP: string -> bool): (err: GoError)
    ensures err == Nil <==> parseIP(address) || address == "localhost"
    ensures err != Nil ==> err == Error("IP address is not valid")
  {
    if !parseIP(address) && address != "localhost" then Error("IP address is not valid") else Nil
  }

  /** isValidPort: base-10 unsigned 64-bit text no greater than 65535. */
  function IsValidPort(port: string): (err: GoError)
    ensures err == Nil <==> ParseUint(port).Some? && ParseUint(port).value <= MaxPort
    ensures err != Nil ==> err == Error("invalid port number")
  {
    match ParseUint(port)
    case None => Error("invalid port number")
    case Some(uintPort) => if uintPort > MaxPort then Error("invalid port number") else Nil
  }

  /** The accepted ports, without reference to ParseUint: a non-empty run of
      decimal digits, leading zeros allowed, denoting at most 65535. */
  lemma IsValidPortDigits(port: string)
    ensures IsValidPort(port) == Nil <==> |port| > 0 && AllDigits(port) && DigitsValue(port) <= MaxPort
  {
  }

  /** Every port number's decimal spelling is accepted, and one past the
      last is not. */
  lemma PortNumbersAccepted(n: nat)
    ensures IsValidPort(FormatNat(n)) == Nil <==> n <= MaxPort
  {
    FormatNatValue(n);
    IsValidPortDigits(FormatNat(n));
  }

  /** A sign is not part of what ParseUint reads. */
  lemma SignedPortRejected(port: string)
    requires |port| > 0 && (port[0] == '+' || port[0] == '-')
    ensures IsValidPort(port) != Nil
  {
    assert !IsDigit(port[0]);
  }

  /** The router http.NewServeMux returns; its registrations are not
      modelled. */
  class ServeMux {
    constructor ()
    {
    }
  }

  class HTTPServer<Storage> {
    var address: string
    var port: string
    var router: ServeMux?
    var strg: Option<Storage>

    /** The zero value: empty strings, nil router, nil storage. */
    constructor ()
      ensures address == "" && port == "" && router == null && strg == None
    {
      address := "";
      port := "";
      router := null;
      strg := None;
    }

    /** Init: the address check comes first and its error wins; on either
        error nothing changes; on success address, port and storage are
        recorded and a fresh router installed. */
    method Init(address: string, port: string, strg: Storage, parseIP: string -> bool) returns (err: GoError)
      modifies this
      ensures err == Nil <==> IsValidIP(address, parseIP) == Nil && IsValidPort(port) == Nil
      ensures IsValidIP(address, parseIP) != Nil ==> err == IsValidIP(address, parseIP)
      ensures IsValidIP(address, parseIP) == Nil ==> err == IsValidPort(port)
      ensures err != Nil ==> unchanged(this)
      ensures err == Nil ==> this.address == address && this.port == port && this.strg == Some(strg)
      ensures err == Nil ==> fresh(router)
    {
      err := IsValidIP(address, parseIP);
      if err != Nil {
        return err;
      }
      err := IsValidPort(port);
      if err != Nil {
        return err;
      }
      this.address, this.port := address, port;
      router := new ServeMux();
      this.strg := Some(strg);
      return Nil;
    }
  }
}
