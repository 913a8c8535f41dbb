/**
  The colour parameter widget (`ChooseColorWidget`): a colour button that
  holds the current colour and whether its alpha channel is enabled. The
  widget reads the parameter's text into the button and writes the button's
  colour back as a `0xRRGGBBAA` text.
*/
module ColorWidget {
  import opened ColorCodec

  class ChooseColorWidget {
    /** The colour held by the button (`m_button->color()`). */
    var color: Color
    /** `m_button->isAlphaChannelEnabled()`. */
    var alphaChannel: bool

    /** The button starts with the parameter's text read as a colour, and
        with its alpha channel enabled exactly when the widget asks for it. */
    constructor (text: string, alphaEnabled: bool, named: string -> Color)
      ensures color == StringToColor(text, named) && alphaChannel == alphaEnabled
    {
      color := StringToColor(text, named);
      alphaChannel := alphaEnabled;
    }

    /** `getColor`: the button's colour as text, with its own alpha only when
        the alpha channel is enabled. */
    method GetColor() returns (s: string)
      ensures s == ColorToString(color, alphaChannel)
      ensures |s| == 10 && s[..2] == "0x"
      ensures HexValue(s[8..]) == if alphaChannel then color.alpha else 255
    {
      s := ColorToString(color, alphaChannel);
    }

    /** `setColor`: the button takes the colour; the alpha setting stays. */
    method SetColor(c: Color)
      modifies this`color
      ensures color == c
    {
      color := c;
    }
  }

  /** Setting a colour and then reading the widget's text gives that colour
      written with the widget's alpha setting. */
  method SetThenGet(w: ChooseColorWidget, c: Color) returns (s: string)
    modifies w
    ensures s == ColorToString(c, w.alphaChannel) && w.alphaChannel == old(w.alphaChannel)
  {
    w.SetColor(c);
    s := w.GetColor();
  }
}
