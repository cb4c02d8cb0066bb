/** processing/background/verification/BackgroundProperties.java: the
    int-scored record filled by processing/background/BackgroundUtils.java.
    That caller passes booleans to the int setters; the model stores them as
    1 and 0. */
module ProcessingBackgroundProperties {
  import opened BackgroundPixels

  /** The score stored for a boolean verdict. */
  function Score(b: bool): (s: int)
    ensures (s != 0) == b && 0 <= s <= 1
  {
    if b then 1 else 0
  }

  class BackgroundProperties {
    var personContourLen: int
    var uniform: int
    var uncolorful: int
    var bright: bool
    var edgesFree: int

    /** The Java defaults: every int zero, isBright true. */
    constructor ()
      ensures personContourLen == 0 && uniform == 0 && uncolorful == 0 && edgesFree == 0 && bright
    {
      personContourLen := 0;
      uniform := 0;
      uncolorful := 0;
      bright := true;
      edgesFree := 0;
    }

    /** setBgColorRgba: only the brightness verdict changes. */
    method SetBgColorRgba(bgColor: seq<real>)
      modifies this
      ensures bright == IsBright(GetBrightness(bgColor))
      ensures personContourLen == old(personContourLen) && uniform == old(uniform)
      ensures uncolorful == old(uncolorful) && edgesFree == old(edgesFree)
    {
      var brightness := GetBrightness(bgColor);
      bright := IsBright(brightness);
    }

    method GetPersonContourLen() returns (r: int)
      ensures r == personContourLen
    {
      r := personContourLen;
    }

    method SetPersonContourLen(len: int)
      modifies this
      ensures personContourLen == len
      ensures uniform == old(uniform) && uncolorful == old(uncolorful) && bright == old(bright) && edgesFree == old(edgesFree)
    {
      personContourLen := len;
    }

    method SetUniform(u: int)
      modifies this
      ensures uniform == u
      ensures personContourLen == old(personContourLen) && uncolorful == old(uncolorful)
      ensures bright == old(bright) && edgesFree == old(edgesFree)
    {
      uniform := u;
    }

    method SetEdgesFree(e: int)
      modifies this
      ensures edgesFree == e
      ensures personContourLen == old(personContourLen) && uniform == old(uniform)
      ensures uncolorful == old(uncolorful) && bright == old(bright)
    {
      edgesFree := e;
    }

    method SetUncolorful(u: int)
      modifies this
      ensures uncolorful == u
      ensures personContourLen == old(personContourLen) && uniform == old(uniform)
      ensures bright == old(bright) && edgesFree == old(edgesFree)
    {
      uncolorful := u;
    }
  }

  /** A setter followed by its getter gives back the value set, whatever
      else was set in between on other fields. */
  method PersonContourLenRoundTrip(props: BackgroundProperties, len: int, u: int) returns (r: int)
    modifies props
    ensures r == len && props.uniform == u
  {
    props.SetPersonContourLen(len);
    props.SetUniform(u);
    r := props.GetPersonContourLen();
  }
}

/** The Boolean-flag record shared in shape by
    detectors/background/BackgroundProperties.java and
    validators/background/BackgroundProperties.java: every flag starts
    true. The two classes differ only in the name of the colour setter
    (setBgColor and setBgColorRgba). */
module FlagBackgroundProperties {
  import opened BackgroundPixels

  class BackgroundProperties {
    var personContourLen: int
    var uniform: bool
    var uncolorful: bool
    var bright: bool
    var edgesFree: bool

    constructor ()
      ensures personContourLen == 0 && uniform && uncolorful && bright && edgesFree
    {
      personContourLen := 0;
      uniform := true;
      uncolorful := true;
      bright := true;
      edgesFree := true;
    }

    /** setBgColor / setBgColorRgba: only the brightness verdict changes. */
    method SetBgColor(bgColor: seq<real>)
      modifies this
      ensures bright == IsBright(GetBrightness(bgColor))
      ensures personContourLen == old(personContourLen) && uniform == old(uniform)
      ensures uncolorful == old(uncolorful) && edgesFree == old(edgesFree)
    {
      var brightness := GetBrightness(bgColor);
      bright := IsBright(brightness);
    }

    method GetPersonContourLen() returns (r: int)
      ensures r == personContourLen
    {
      r := personContourLen;
    }

    method SetPersonContourLen(len: int)
      modifies this
      ensures personContourLen == len
      ensures uniform == old(uniform) && uncolorful == old(uncolorful) && bright == old(bright) && edgesFree == old(edgesFree)
    {
      personContourLen := len;
    }

    method SetUniform(u: bool)
      modifies this
      ensures uniform == u
      ensures personContourLen == old(personContourLen) && uncolorful == old(uncolorful)
      ensures bright == old(bright) && edgesFree == old(edgesFree)
    {
      uniform := u;
    }

    method IsUniform() returns (r: bool)
      ensures r == uniform
    {
      r := uniform;
    }

    method SetEdgesFree(e: bool)
      modifies this
      ensures edgesFree == e
      ensures personContourLen == old(personContourLen) && uniform == old(uniform)
      ensures uncolorful == old(uncolorful) && bright == old(bright)
    {
      edgesFree := e;
    }

    method SetUncolorful(u: bool)
      modifies this
      ensures uncolorful == u
      ensures personContourLen == old(personContourLen) && uniform == old(uniform)
      ensures bright == old(bright) && edgesFree == old(edgesFree)
    {
      uncolorful := u;
    }
  }
}
