TestResult.DisplayName,TestResult.Outcome,TestResult.Duration,TestResult.ResourceCount,RandomSeed
ActivityCard.ActivityIcon (well-formedness),Passed,00:00:00.2872956,77696,2
ActivityCard.ActivityColor (well-formedness),Passed,00:00:00.2731957,76487,2
ActivityCard.UnitOnlyLabels (correctness),Passed,00:00:00.2558314,424850,2
ActivityCard.ReadOnlyLabels (correctness),Passed,00:00:00.2477297,292729,2
ActivityCard.HoursMinutesLabelIs (correctness),Passed,00:00:00.1138070,325827,2
ActivityCard.FormatDurationRoundTrip (correctness),Passed,00:00:00.0673297,128410,2
ActivityCard.ReadHoursThenMinutes (correctness),Passed,00:00:00.0579237,103031,2
ActivityCard.ReadHoursMinutesLabel (correctness),Passed,00:00:00.0559363,93228,2
ActivityCard.ReadAfterNumber (well-formedness),Passed,00:00:00.0552727,33679,2
ActivityCard.ReadAfterNumber (correctness),Passed,00:00:00.0528362,47232,2
ActivityCard.FormatDuration (well-formedness),Passed,00:00:00.0472937,37398,2
ActivityCard.MinutesOnlyLabel (correctness),Passed,00:00:00.0445685,66793,2
ActivityCard.HoursMinutesLabelIs (well-formedness),Passed,00:00:00.0362327,33983,2
ActivityCard.ReadDuration (well-formedness),Passed,00:00:00.0361313,33050,2
ActivityCard.ReadMinutes (well-formedness),Passed,00:00:00.0329438,28554,2
ActivityCard.ReadUnit (well-formedness),Passed,00:00:00.0327718,30514,2
ActivityCard.ReadMinutesOf (correctness),Passed,00:00:00.0316882,43102,2
ActivityCard.LabelOfHoursMinutes (correctness),Passed,00:00:00.0302010,59692,2
ActivityCard.MinutesLabelIs (correctness),Passed,00:00:00.0244784,26899,2
ActivityCard.HoursAndMinutes (well-formedness),Passed,00:00:00.0183948,4597,2
ActivityCard.HoursAndMinutes (correctness),Passed,00:00:00.0159864,14590,2
