/** The one piece of the browser's element model the components write to: inline style properties. */
module Dom {

  /** An element whose inline style is a map from property name to value. */
  class StyledElement {
    var style: map<string, string>

    constructor ()
      ensures style == map[]
    {
      style := map[];
    }

    /** `element.style.setProperty(name, value)`. */
    method SetProperty(name: string, value: string)
      modifies this
      ensures style == old(style)[name := value]
    {
      style := style[name := value];
    }
  }
}
