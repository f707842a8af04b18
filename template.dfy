/** `build_message`: the fixed reminder text sent over WhatsApp. */
module Template {
  import opened Records

  const Opening := "\U{1F697} Halo Sdr/i "
  const AfterName := " (sesuai STNK) \n\n\U{1F4C5} Masa berlaku UJI KIR anda dengan Nomor Kendaraan: "
  const AfterVehicle := " \n\U{1F522} Nomor Uji : "
  const AfterNoUji := " \n\U{1F69B} Jenis Kendaraan : "
  const AfterJenis := " \n\U{1F4C6} Tanggal Uji Kendaraan: "
  const Closing :=
    "\n\n\U{26A0}\U{FE0F} Mohon untuk segera melakukkan uji berkala kendaraan anda di Pengujian Kendaraan Bermotor di Dishub Kota Surakarta.\n"
    + "\U{2705} Pastikan kendaraan anda sudah siap diuji dan layak jalan. \n"
    + "\U{1F527} Pemilik wajib menjaga dan memelihara kendaraan agar selalu dalam kondisi baik dan layak jalan\n"
    + "\U{23F0} Harap hadir sesuai jadwal \n\n"
    + "\U{1F64F} Terima Kasih - Dishub Kota Surakarta\n"

  /** The fixed text around the five fields. */
  const FixedLength := |Opening| + |AfterName| + |AfterVehicle| + |AfterNoUji| + |AfterJenis| + |Closing|

  /** `build_message(record, status_label)`: the f-string's fixed pieces with
      the five fields in between. The label is accepted and ignored: every
      reminder gets the same text whatever its urgency. */
  function BuildMessage(r: Reminder, statusLabel: string): (m: string)
    ensures |m| == FixedLength + |r.name| + |r.vehicleNumber| + |Show(r.noUji)|
                   + |Show(r.jenisKendaraan)| + |r.testDate|
  {
    Opening + r.name + AfterName + r.vehicleNumber + AfterVehicle + Show(r.noUji)
      + AfterNoUji + Show(r.jenisKendaraan) + AfterJenis + r.testDate + Closing
  }

  /** `x` can be read in `m` starting at position `i`. */
  predicate At(m: string, i: int, x: string) {
    0 <= i && i + |x| <= |m| && m[i..i + |x|] == x
  }

  /** The message opens with the greeting, followed by the name, and ends
      with the test date and the fixed closing, whatever the fields contain. */
  lemma MessageLayout(r: Reminder, statusLabel: string)
    ensures var m := BuildMessage(r, statusLabel);
      var dateAt := |m| - |Closing| - |r.testDate|;
      && At(m, 0, Opening)
      && At(m, |Opening|, r.name)
      && At(m, dateAt, r.testDate)
      && At(m, dateAt + |r.testDate|, Closing)
  {
    OuterPieces(Opening, r.name, AfterName, r.vehicleNumber, AfterVehicle, Show(r.noUji),
           AfterNoUji, Show(r.jenisKendaraan), AfterJenis, r.testDate, Closing);
  }

  /** The vehicle number, the test number and the vehicle kind sit verbatim in
      their slots, each starting where the fixed text before it ends, whatever
      the fields contain. */
  lemma MessageFields(r: Reminder, statusLabel: string)
    ensures var m := BuildMessage(r, statusLabel);
      var vehicleAt := |Opening| + |r.name| + |AfterName|;
      var noUjiAt := vehicleAt + |r.vehicleNumber| + |AfterVehicle|;
      var jenisAt := noUjiAt + |Show(r.noUji)| + |AfterNoUji|;
      && At(m, vehicleAt, r.vehicleNumber)
      && At(m, noUjiAt, Show(r.noUji))
      && At(m, jenisAt, Show(r.jenisKendaraan))
  {
    InnerPieces(Opening, r.name, AfterName, r.vehicleNumber, AfterVehicle, Show(r.noUji),
           AfterNoUji, Show(r.jenisKendaraan), AfterJenis, r.testDate, Closing);
  }

  /** The labels of the vehicle number and the test number follow the name
      and the vehicle number, verbatim. */
  lemma MessageLabels(r: Reminder, statusLabel: string)
    ensures var m := BuildMessage(r, statusLabel);
      var nameEnd := |Opening| + |r.name|;
      var vehicleEnd := nameEnd + |AfterName| + |r.vehicleNumber|;
      && At(m, nameEnd, AfterName)
      && At(m, vehicleEnd, AfterVehicle)
  {
    FrontLabelPieces(Opening, r.name, AfterName, r.vehicleNumber, AfterVehicle, Show(r.noUji),
           AfterNoUji, Show(r.jenisKendaraan), AfterJenis, r.testDate, Closing);
  }

  /** The labels of the vehicle kind and the test date follow the test number
      and the vehicle kind, verbatim. */
  lemma MessageLateLabels(r: Reminder, statusLabel: string)
    ensures var m := BuildMessage(r, statusLabel);
      var noUjiEnd := |Opening| + |r.name| + |AfterName| + |r.vehicleNumber|
                      + |AfterVehicle| + |Show(r.noUji)|;
      var jenisEnd := noUjiEnd + |AfterNoUji| + |Show(r.jenisKendaraan)|;
      && At(m, noUjiEnd, AfterNoUji)
      && At(m, jenisEnd, AfterJenis)
  {
    BackLabelPieces(Opening, r.name, AfterName, r.vehicleNumber, AfterVehicle, Show(r.noUji),
           AfterNoUji, Show(r.jenisKendaraan), AfterJenis, r.testDate, Closing);
  }

  /** The status label makes no difference to the message. */
  lemma MessageIgnoresLabel(r: Reminder, a: string, b: string)
    ensures BuildMessage(r, a) == BuildMessage(r, b)
  {
  }

  /** In eleven concatenated pieces, the first two and the last two can be
      read back at the sum of the lengths before them. */
  lemma OuterPieces(p0: string, p1: string, p2: string, p3: string, p4: string, p5: string,
                    p6: string, p7: string, p8: string, p9: string, p10: string)
    ensures var m := p0 + p1 + p2 + p3 + p4 + p5 + p6 + p7 + p8 + p9 + p10;
      var o10 := |m| - |p10|;
      var o9 := o10 - |p9|;
      && At(m, 0, p0) && At(m, |p0|, p1) && At(m, o9, p9) && At(m, o10, p10)
  {
  }

  /** In eleven concatenated pieces, the fourth, sixth and eighth can be read
      back at the sum of the lengths before them. */
  lemma InnerPieces(p0: string, p1: string, p2: string, p3: string, p4: string, p5: string,
                    p6: string, p7: string, p8: string, p9: string, p10: string)
    ensures var m := p0 + p1 + p2 + p3 + p4 + p5 + p6 + p7 + p8 + p9 + p10;
      var o3 := |p0| + |p1| + |p2|;
      var o5 := o3 + |p3| + |p4|;
      var o7 := o5 + |p5| + |p6|;
      && At(m, o3, p3) && At(m, o5, p5) && At(m, o7, p7)
  {
  }

  /** In eleven concatenated pieces, the third and fifth can be read back at
      the sum of the lengths before them. */
  lemma FrontLabelPieces(p0: string, p1: string, p2: string, p3: string, p4: string, p5: string,
                         p6: string, p7: string, p8: string, p9: string, p10: string)
    ensures var m := p0 + p1 + p2 + p3 + p4 + p5 + p6 + p7 + p8 + p9 + p10;
      var o2 := |p0| + |p1|;
      var o4 := o2 + |p2| + |p3|;
      At(m, o2, p2) && At(m, o4, p4)
  {
  }

  /** In eleven concatenated pieces, the seventh and ninth can be read back at
      the sum of the lengths before them. */
  lemma BackLabelPieces(p0: string, p1: string, p2: string, p3: string, p4: string, p5: string,
                        p6: string, p7: string, p8: string, p9: string, p10: string)
    ensures var m := p0 + p1 + p2 + p3 + p4 + p5 + p6 + p7 + p8 + p9 + p10;
      var o6 := |p0| + |p1| + |p2| + |p3| + |p4| + |p5|;
      var o8 := o6 + |p6| + |p7|;
      At(m, o6, p6) && At(m, o8, p8)
  {
  }
}
